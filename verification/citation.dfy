/** The citation-marker pattern of parser.py:37, `(\s?\[\d\])|(\s?\[\d+-{1}\d+])`,
    and Python's `pattern.sub('', text)` with it (parser.py:62).

    A marker is one optional whitespace character followed by either a single
    digit in brackets, `[3]`, or a range of two digit runs in brackets, `[4-8]`.
    A multi-digit single citation such as `[12]` is not a marker. */
module Citation {

  /** Python's `\s` on `str` patterns: the characters `str.isspace()` accepts. */
  predicate IsSpace(c: char)
  {
    var n := c as int;
    || 0x09 <= n <= 0x0D
    || 0x1C <= n <= 0x20
    || n == 0x85 || n == 0xA0 || n == 0x1680
    || 0x2000 <= n <= 0x200A
    || n == 0x2028 || n == 0x2029 || n == 0x202F || n == 0x205F || n == 0x3000
  }

  /** `\d`, restricted to the ASCII digits. */
  predicate IsDigit(c: char)
  {
    '0' <= c <= '9'
  }

  predicate AllDigits(t: string)
  {
    forall i :: 0 <= i < |t| ==> IsDigit(t[i])
  }

  /** `\[\d\]`: one digit in brackets. */
  predicate IsSingle(t: string)
  {
    |t| == 3 && t[0] == '[' && IsDigit(t[1]) && t[2] == ']'
  }

  /** The dash of `[a-b]` sits at offset `k`, with digit runs on both sides. */
  predicate RangeSplitAt(t: string, k: int)
  {
    && 1 < k < |t| - 2
    && t[0] == '[' && t[k] == '-' && t[|t| - 1] == ']'
    && AllDigits(t[1..k]) && AllDigits(t[k + 1..|t| - 1])
  }

  /** `\[\d+-\d+]`: two non-empty digit runs joined by one dash, in brackets. */
  ghost predicate IsRange(t: string)
  {
    exists k :: RangeSplitAt(t, k)
  }

  /** The language of the whole pattern: either alternative, each with an
      optional leading whitespace character. */
  ghost predicate IsMarker(t: string)
  {
    || IsSingle(t) || IsRange(t)
    || (|t| > 0 && IsSpace(t[0]) && (IsSingle(t[1..]) || IsRange(t[1..])))
  }

  /** Length of the longest run of digits at the start of `s`. */
  function DigitRun(s: string): (n: nat)
    ensures n <= |s|
    ensures AllDigits(s[..n])
    ensures n < |s| ==> !IsDigit(s[n])
  {
    if |s| > 0 && IsDigit(s[0]) then
      var m := DigitRun(s[1..]);
      assert s[..1 + m] == [s[0]] + s[1..][..m];
      1 + m
    else 0
  }

  /** Length of a bracketed citation at the start of `s`, 0 when there is none. */
  function BracketLen(s: string): nat
  {
    if |s| >= 3 && s[0] == '[' && IsDigit(s[1]) && s[2] == ']' then 3
    else if |s| > 0 && s[0] == '[' then
      var a := DigitRun(s[1..]);
      var rest := s[1 + a..];
      if a > 0 && |rest| > 0 && rest[0] == '-' then
        var b := DigitRun(rest[1..]);
        if b > 0 && 1 + b < |rest| && rest[1 + b] == ']' then a + b + 3 else 0
      else 0
    else 0
  }

  /** Length of the pattern's match at the start of `s`, 0 when it does not
      match there. `\s?` is greedy, so a leading whitespace character is part
      of the match whenever a citation follows it. */
  function MatchLen(s: string): (n: nat)
    ensures n <= |s|
    ensures n > 0 ==> IsMarker(s[..n])
  {
    BracketLenSound(s);
    if |s| > 0 && IsSpace(s[0]) && BracketLen(s[1..]) > 0 then
      BracketLenSound(s[1..]);
      assert s[..1 + BracketLen(s[1..])][1..] == s[1..][..BracketLen(s[1..])];
      1 + BracketLen(s[1..])
    else BracketLen(s)
  }

  /** `pattern.sub('', s)`: scan left to right, delete each match, resume
      after it, and keep every character where no match starts. */
  function Strip(s: string): (r: string)
    ensures |r| <= |s|
    decreases |s|
  {
    if |s| == 0 then ""
    else
      var n := MatchLen(s);
      if n > 0 then Strip(s[n..]) else [s[0]] + Strip(s[1..])
  }

  /** No substring of `s` is in the pattern's language. */
  ghost predicate NoMarker(s: string)
  {
    forall i, j :: 0 <= i < j <= |s| ==> !IsMarker(s[i..j])
  }

  lemma BracketLenSound(s: string)
    ensures BracketLen(s) <= |s|
    ensures BracketLen(s) > 0 ==> IsSingle(s[..BracketLen(s)]) || IsRange(s[..BracketLen(s)])
  {
    if BracketLen(s) > 0 && !IsSingle(s[..BracketLen(s)]) {
      var a := DigitRun(s[1..]);
      var rest := s[1 + a..];
      var b := DigitRun(rest[1..]);
      var t := s[..a + b + 3];
      assert t[1..a + 1] == s[1..][..a];
      assert t[a + 2..|t| - 1] == rest[1..][..b];
      assert RangeSplitAt(t, a + 1);
    }
  }

  /** A digit run is as long as the maximal run `DigitRun` measures, when the
      character after it is not a digit. */
  lemma DigitRunUnique(s: string, m: nat)
    requires m <= |s| && AllDigits(s[..m])
    requires m < |s| ==> !IsDigit(s[m])
    ensures DigitRun(s) == m
  {
    if m > 0 {
      assert s[1..][..m - 1] == s[..m][1..];
      DigitRunUnique(s[1..], m - 1);
    } else if |s| > 0 {
      assert !IsDigit(s[0]);
    }
  }

  /** A bracketed citation at the start of `s` is exactly what `BracketLen`
      measures: the match has a unique length. */
  lemma BracketLenComplete(s: string, n: nat)
    requires n <= |s|
    requires IsSingle(s[..n]) || IsRange(s[..n])
    ensures BracketLen(s) == n
  {
    var t := s[..n];
    if !IsSingle(t) {
      var k :| RangeSplitAt(t, k);
      assert t[1..k] == s[1..][..k - 1];
      DigitRunUnique(s[1..], k - 1);
      var rest := s[k..];
      assert t[k + 1..n - 1] == rest[1..][..n - k - 2];
      DigitRunUnique(rest[1..], n - k - 2);
    }
  }

  /** The match length is unique: any marker at the start of `s` is the match
      the regular-expression engine reports there. */
  lemma MatchLenComplete(s: string, n: nat)
    requires n <= |s| && IsMarker(s[..n])
    ensures MatchLen(s) == n
  {
    var t := s[..n];
    if IsSingle(t) || IsRange(t) {
      BracketLenComplete(s, n);
      assert s[0] == t[0] == '[';
    } else {
      assert t[1..] == s[1..][..n - 1];
      BracketLenComplete(s[1..], n - 1);
    }
  }

  /** A match somewhere in `s` means stripping removes something: either the
      scan deletes that match or it deletes one overlapping it earlier. */
  lemma {:induction false} StripShrinks(s: string, i: nat)
    requires i < |s| && MatchLen(s[i..]) > 0
    ensures |Strip(s)| < |s|
    decreases i
  {
    if MatchLen(s) == 0 {
      assert i > 0;
      assert s[1..][i - 1..] == s[i..];
      StripShrinks(s[1..], i - 1);
    }
  }

  /** Stripping changes nothing exactly when no marker occurs in the text. */
  lemma {:induction false} StripUnchangedIff(s: string)
    ensures Strip(s) == s <==> NoMarker(s)
    decreases |s|
  {
    if NoMarker(s) {
      NoMarkerStripsNothing(s);
    } else {
      var i, j :| 0 <= i < j <= |s| && IsMarker(s[i..j]);
      assert s[i..][..j - i] == s[i..j];
      MatchLenComplete(s[i..], j - i);
      StripShrinks(s, i);
    }
  }

  lemma {:induction false} NoMarkerStripsNothing(s: string)
    requires NoMarker(s)
    ensures Strip(s) == s
    decreases |s|
  {
    if |s| > 0 {
      assert s[..MatchLen(s)] == s[0..MatchLen(s)];
      forall i, j | 0 <= i < j <= |s[1..]|
        ensures !IsMarker(s[1..][i..j])
      {
        assert s[1..][i..j] == s[i + 1..j + 1];
      }
      NoMarkerStripsNothing(s[1..]);
    }
  }

  /** Text with no opening bracket passes through unchanged. */
  lemma NoBracketUnchanged(s: string)
    requires '[' !in s
    ensures Strip(s) == s
  {
    forall i, j | 0 <= i < j <= |s|
      ensures !IsMarker(s[i..j])
    {
      var t := s[i..j];
      if |t| > 1 {
        assert t[0] in s && t[1] in s;
      } else if |t| == 1 {
        assert t[0] in s;
      }
    }
    NoMarkerStripsNothing(s);
  }

  /** Stripping is not idempotent: deleting an inner marker can join the text
      around it into a new marker. */
  lemma StripNotIdempotent()
    ensures Strip("[[1]1]") == "[1]"
    ensures Strip(Strip("[[1]1]")) == ""
  {
    var s := "[[1]1]";
    assert MatchLen(s) == 0;
    assert Strip(s) == "[" + Strip(s[1..]);
    assert MatchLen(s[1..]) == 3;
    assert s[1..][3..] == "1]";
    assert Strip(s[1..]) == Strip("1]");
    assert MatchLen("1]") == 0 && MatchLen("]") == 0;
    assert Strip("1]") == "1]";
    assert MatchLen("[1]") == 3;
    assert Strip("[1]") == Strip("");
  }

  /** A bracketed citation starts with `[`. */
  lemma BracketLenNeedsOpen(t: string)
    requires |t| == 0 || t[0] != '['
    ensures BracketLen(t) == 0
  {
  }

  /** Where no match starts, the first character is kept. */
  lemma StripKeepsFirst(s: string)
    requires |s| > 0 && MatchLen(s) == 0
    ensures Strip(s) == [s[0]] + Strip(s[1..])
  {
  }

  /** No match starts at the first character of a bracket-free prefix, and
      the rest of the prefix meets the same conditions. */
  lemma PlainStep(a: string, b: string)
    requires '[' !in a && |a| > 0
    requires IsSpace(a[|a| - 1]) ==> BracketLen(b) == 0
    ensures MatchLen(a + b) == 0
    ensures (a + b)[0] == a[0] && (a + b)[1..] == a[1..] + b
    ensures '[' !in a[1..]
    ensures |a[1..]| > 0 && IsSpace(a[1..][|a[1..]| - 1]) ==> BracketLen(b) == 0
  {
    var s := a + b;
    assert s[0] == a[0] && a[0] in a;
    assert s[1..] == a[1..] + b;
    BracketLenNeedsOpen(s);
    if IsSpace(a[0]) {
      if |a| > 1 {
        assert s[1..][0] == a[1] && a[1] in a;
        BracketLenNeedsOpen(s[1..]);
      } else {
        assert s[1..] == b;
      }
    }
    assert |a| > 1 ==> a[1..][|a[1..]| - 1] == a[|a| - 1];
    assert forall i :: 0 <= i < |a[1..]| ==> a[1..][i] == a[i + 1];
  }

  /** A prefix with no opening bracket is copied through, provided it does
      not end in whitespace that a citation could absorb. */
  lemma {:induction false} StripPlainPrefix(a: string, b: string)
    requires '[' !in a
    requires |a| > 0 && IsSpace(a[|a| - 1]) ==> BracketLen(b) == 0
    ensures Strip(a + b) == a + Strip(b)
    decreases |a|
  {
    if |a| > 0 {
      PlainStep(a, b);
      StripKeepsFirst(a + b);
      StripPlainPrefix(a[1..], b);
      assert [a[0]] + a[1..] == a;
      ConsAssoc(a[0], a[1..], Strip(b));
    } else {
      assert a + b == b;
    }
  }

  lemma ConsAssoc(x: char, u: string, v: string)
    ensures [x] + (u + v) == ([x] + u) + v
  {
  }

  lemma SeqAssoc(a: string, b: string, c: string, d: string)
    ensures a + b + c + d == a + (b + c + d)
  {
  }

  /** At most one whitespace character: the `\s?` of the pattern. */
  predicate OptSpace(lead: string)
  {
    |lead| == 0 || (|lead| == 1 && IsSpace(lead[0]))
  }

  /** `a` is plain text after which `lead` starts a match: `a` holds no
      bracket, and if no whitespace is given, `a` does not end in one. */
  predicate PlainBefore(a: string, lead: string)
  {
    '[' !in a && OptSpace(lead) && (|lead| == 0 && |a| > 0 ==> !IsSpace(a[|a| - 1]))
  }

  /** With an optional whitespace character before it, a citation at the
      start of `t` is matched together with that character. */
  lemma MatchAfterLead(lead: string, t: string)
    requires OptSpace(lead) && BracketLen(t) > 0
    ensures MatchLen(lead + t) == |lead| + BracketLen(t)
    ensures (lead + t)[|lead| + BracketLen(t)..] == t[BracketLen(t)..]
  {
    var n := BracketLen(t);
    BracketLenStartsOpen(t);
    if |lead| == 0 {
      assert lead + t == t;
      assert !IsSpace(t[0]);
    } else {
      var s := lead + t;
      assert s[0] == lead[0] && s[1..] == t;
      assert s[1 + n..] == t[n..];
    }
  }

  lemma BracketLenStartsOpen(t: string)
    requires BracketLen(t) > 0
    ensures |t| > 0 && t[0] == '['
  {
  }

  /** A single-digit citation, with its optional leading whitespace, is
      removed and the text around it is kept. */
  lemma StripSingleCitation(a: string, lead: string, d: char, rest: string)
    requires PlainBefore(a, lead) && IsDigit(d)
    ensures Strip(a + lead + ['[', d, ']'] + rest) == a + Strip(rest)
  {
    var c := ['[', d, ']'];
    var m := lead + c + rest;
    assert BracketLen(c + rest) == 3;
    assert (c + rest)[3..] == rest;
    assert m == lead + (c + rest);
    MatchAfterLead(lead, c + rest);
    SeqAssoc(a, lead, c, rest);
    StripPlainPrefix(a, m);
  }

  lemma RangeBracketLen(x: string, y: string, rest: string)
    requires |x| > 0 && |y| > 0 && AllDigits(x) && AllDigits(y)
    ensures BracketLen("[" + x + "-" + y + "]" + rest) == |x| + |y| + 3
  {
    var c := "[" + x + "-" + y + "]";
    var n := |x| + |y| + 3;
    assert (c + rest)[..n] == c;
    assert RangeSplitAt(c, |x| + 1) by {
      assert c[1..|x| + 1] == x;
      assert c[|x| + 2..|c| - 1] == y;
    }
    BracketLenComplete(c + rest, n);
  }

  /** A range citation `[x-y]`, with its optional leading whitespace, is
      removed and the text around it is kept. */
  lemma StripRangeCitation(a: string, lead: string, x: string, y: string, rest: string)
    requires PlainBefore(a, lead)
    requires |x| > 0 && |y| > 0 && AllDigits(x) && AllDigits(y)
    ensures Strip(a + lead + ("[" + x + "-" + y + "]") + rest) == a + Strip(rest)
  {
    var c := "[" + x + "-" + y + "]";
    var m := lead + c + rest;
    RangeBracketLen(x, y, rest);
    assert (c + rest)[|c|..] == rest;
    assert m == lead + (c + rest);
    MatchAfterLead(lead, c + rest);
    SeqAssoc(a, lead, c, rest);
    StripPlainPrefix(a, m);
  }

  /** A leading bracket that does not start a match is kept, and the rest is
      plain text. */
  lemma StripKeepsBracket(x: string)
    requires '[' !in x && MatchLen("[" + x) == 0
    ensures Strip("[" + x) == "[" + x
  {
    var s := "[" + x;
    assert s[1..] == x;
    NoBracketUnchanged(x);
    assert Strip(s) == [s[0]] + Strip(s[1..]);
  }

  lemma NoBracketClose(x: string)
    requires '[' !in x
    ensures '[' !in x + "]"
  {
    forall i | 0 <= i < |x| + 1
      ensures (x + "]")[i] != '['
    {
      if i < |x| {
        assert x[i] in x;
      }
    }
  }

  /** A bracketed run of two or more digits with no dash, such as `[12]`,
      is not a citation marker: it is kept, whatever text follows it. */
  lemma StripKeepsMultiDigit(x: string, rest: string)
    requires |x| >= 2 && AllDigits(x)
    ensures Strip("[" + x + "]" + rest) == "[" + x + "]" + Strip(rest)
  {
    MultiDigitNoMatch(x, rest);
    KeptBracket(x, rest);
  }

  /** `[` followed by two or more digits and `]` starts no match, and the
      digits hold no bracket. */
  lemma MultiDigitNoMatch(x: string, rest: string)
    requires |x| >= 2 && AllDigits(x)
    ensures MatchLen("[" + x + "]" + rest) == 0
    ensures '[' !in x
  {
    var s := "[" + x + "]" + rest;
    assert s[1..] == x + "]" + rest;
    assert s[1..][..|x|] == x;
    assert s[1..][|x|] == ']';
    DigitRunUnique(s[1..], |x|);
    assert s[1 + |x|..][0] == ']';
    forall i | 0 <= i < |x|
      ensures x[i] != '['
    {
      assert IsDigit(x[i]);
    }
  }

  /** Brackets whose content does not start with a digit, such as `[a]`,
      are kept, whatever text follows them. */
  lemma StripKeepsNonDigit(x: string, rest: string)
    requires '[' !in x && (|x| == 0 || !IsDigit(x[0]))
    ensures Strip("[" + x + "]" + rest) == "[" + x + "]" + Strip(rest)
  {
    var s := "[" + x + "]" + rest;
    assert s[1] == (x + "]" + rest)[0];
    assert s[1..] == x + "]" + rest;
    DigitRunUnique(s[1..], 0);
    assert MatchLen(s) == 0;
    KeptBracket(x, rest);
  }

  /** A bracketed `x` at which no match starts is copied through. */
  lemma KeptBracket(x: string, rest: string)
    requires '[' !in x && MatchLen("[" + x + "]" + rest) == 0
    ensures Strip("[" + x + "]" + rest) == "[" + x + "]" + Strip(rest)
  {
    var t := x + "]";
    var s := "[" + x + "]" + rest;
    assert s == "[" + (t + rest);
    assert s[0] == '[' && s[1..] == t + rest;
    StripKeepsFirst(s);
    NoBracketClose(x);
    StripPlainPrefix(t, rest);
    ConsAssoc('[', t, Strip(rest));
    assert "[" + x + "]" == ['['] + t;
  }
}
