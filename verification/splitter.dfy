/** The download-list splitter (download_scripts/splitter.py): every line of
    an FTP directory listing carries a quoted file name; names of tar
    archives that mention `xml` become download URLs under the bulk
    directory of the PMC FTP server. */
module Splitter {
  import opened Wrappers
  import Seqs

  const Quote: char := '"'

  /** The directory the archives are downloaded from; every URL starts with it. */
  const BaseUrl: string := "ftp://ftp.ncbi.nlm.nih.gov/pub/pmc/oa_bulk/"

  /** Offset of the first `c` in `s`. */
  function FirstIndex(s: string, c: char): (i: nat)
    requires c in s
    ensures i < |s| && s[i] == c && c !in s[..i]
  {
    if s[0] == c then 0
    else
      var j := FirstIndex(s[1..], c);
      assert s[..j + 1] == [s[0]] + s[1..][..j];
      j + 1
  }

  /** Any offset holding the first `c` is `FirstIndex`. */
  lemma FirstIndexUnique(s: string, c: char, i: nat)
    requires i < |s| && s[i] == c && c !in s[..i]
    ensures FirstIndex(s, c) == i
  {
    var j := FirstIndex(s, c);
    assert forall k :: 0 <= k < i ==> s[..i][k] == s[k];
    assert forall k :: 0 <= k < j ==> s[..j][k] == s[k];
  }

  /** Python's `s.split(c)` for a one-character separator: the maximal
      separator-free pieces, one more than there are separators. */
  function Split(s: string, c: char): (r: seq<string>)
    ensures |r| >= 1
    ensures c in s <==> |r| >= 2
    ensures forall k :: 0 <= k < |r| ==> c !in r[k]
    decreases |s|
  {
    if c !in s then [s]
    else
      var i := FirstIndex(s, c);
      [s[..i]] + Split(s[i + 1..], c)
  }

  /** Joining the pieces with the separator gives back the line. */
  lemma {:induction false} SplitJoin(s: string, c: char)
    ensures Seqs.Join(Split(s, c), [c]) == s
    decreases |s|
  {
    if c in s {
      var i := FirstIndex(s, c);
      var rest := Split(s[i + 1..], c);
      SplitJoin(s[i + 1..], c);
      assert ([s[..i]] + rest)[1..] == rest;
      assert s == s[..i] + [c] + s[i + 1..];
    }
  }

  /** A separator-free first piece is split off as is. */
  lemma SplitFirst(a: string, c: char, rest: string)
    requires c !in a
    ensures Split(a + [c] + rest, c) == [a] + Split(rest, c)
  {
    var s := a + [c] + rest;
    assert s[..|a|] == a;
    FirstIndexUnique(s, c, |a|);
    assert s[|a| + 1..] == rest;
  }

  /** Conversely, separator-free pieces are recovered from their join: the
      split is the only decomposition of the line into such pieces. */
  lemma {:induction false} JoinSplit(parts: seq<string>, c: char)
    requires |parts| >= 1
    requires forall k :: 0 <= k < |parts| ==> c !in parts[k]
    ensures Split(Seqs.Join(parts, [c]), c) == parts
  {
    assert c !in parts[0];
    if |parts| > 1 {
      var tail := parts[1..];
      assert Seqs.Join(parts, [c]) == parts[0] + [c] + Seqs.Join(tail, [c]);
      assert forall k :: 0 <= k < |tail| ==> tail[k] == parts[k + 1];
      JoinSplit(tail, c);
      SplitFirst(parts[0], c, Seqs.Join(tail, [c]));
      assert [parts[0]] + tail == parts;
    } else {
      assert Seqs.Join(parts, [c]) == parts[0];
      assert [parts[0]] == parts;
    }
  }

  /** `line.split('"')[1]`: the name after the first quote, up to the next
      quote or the end of the line; `None` is the IndexError of a line
      without a quote. */
  function NameOf(line: string): Option<string>
  {
    if Quote in line then Some(Split(line, Quote)[1]) else None
  }

  /** The name between the first two quotes is extracted exactly. */
  lemma NameBetweenQuotes(pre: string, name: string, post: string)
    requires Quote !in pre && Quote !in name
    ensures NameOf(pre + [Quote] + name + [Quote] + post) == Some(name)
  {
    var line := pre + [Quote] + name + [Quote] + post;
    assert line == pre + [Quote] + (name + [Quote] + post);
    SplitFirst(pre, Quote, name + [Quote] + post);
    SplitFirst(name, Quote, post);
  }

  /** With a single quote the name runs to the end of the line, line break
      included. */
  lemma NameToEndOfLine(pre: string, tail: string)
    requires Quote !in pre && Quote !in tail
    ensures NameOf(pre + [Quote] + tail) == Some(tail)
  {
    SplitFirst(pre, Quote, tail);
  }

  /** The two exceptions that end the script. */
  datatype Error = IndexError | AssertionError

  datatype LineOutcome = Written(url: string) | Dropped | Failed(error: Error)

  /** One iteration of the loop over the listing. */
  function ProcessLine(line: string): LineOutcome
  {
    match NameOf(line)
    case None => Failed(IndexError)
    case Some(name) =>
      if !Seqs.Contains(name, "tar") then Failed(AssertionError)
      else if Seqs.Contains(name, "xml") then Written(BaseUrl + name + "\n")
      else Dropped
  }

  /** What each line leads to, in terms of the quoted name: no quote is an
      IndexError, a name without `tar` an AssertionError (even when it
      mentions `xml`), and otherwise exactly the names mentioning `xml` are
      written, as a URL that gives the name back between the base and the
      line break. */
  lemma ProcessLineCases(line: string)
    ensures ProcessLine(line) == Failed(IndexError) <==> Quote !in line
    ensures ProcessLine(line) == Failed(AssertionError)
        <==> Quote in line && !(exists i :: Seqs.OccursAt(NameOf(line).value, "tar", i))
    ensures ProcessLine(line).Written?
        <==> Quote in line && (exists i :: Seqs.OccursAt(NameOf(line).value, "tar", i))
                           && (exists i :: Seqs.OccursAt(NameOf(line).value, "xml", i))
    ensures ProcessLine(line).Written? ==>
      var u := ProcessLine(line).url;
      |u| > |BaseUrl| && u[..|BaseUrl|] == BaseUrl && u[|u| - 1] == '\n'
      && Some(u[|BaseUrl|..|u| - 1]) == NameOf(line) && Quote !in u[|BaseUrl|..|u| - 1]
  {
    if Quote in line {
      var name := NameOf(line).value;
      Seqs.ContainsIff(name, "tar");
      Seqs.ContainsIff(name, "xml");
      if ProcessLine(line).Written? {
        var u := BaseUrl + name + "\n";
        assert u[|BaseUrl|..|u| - 1] == name;
        var parts := Split(line, Quote);
        assert Quote !in parts[1];
      }
    }
  }

  predicate IsWritten(line: string)
  {
    ProcessLine(line).Written?
  }

  function UrlOf(line: string): string
  {
    if IsWritten(line) then ProcessLine(line).url else ""
  }

  /** The URLs of `lines`, in order: one per line whose outcome is written. */
  function Urls(lines: seq<string>): seq<string>
  {
    Seqs.Map(Seqs.Filter(lines, IsWritten), UrlOf)
  }

  predicate Fails(line: string)
  {
    ProcessLine(line).Failed?
  }

  /** Line `k` is the first line that raises. */
  predicate FirstFailure(lines: seq<string>, k: int)
  {
    0 <= k < |lines| && Fails(lines[k]) && forall j :: 0 <= j < k ==> !Fails(lines[j])
  }

  /** The script over the listing: the URLs written to the output file and
      the exception, if any, that stopped it. Lines are handled in order and
      the URLs written before an exception stay in the file. */
  method SplitListing(lines: seq<string>) returns (urls: seq<string>, err: Option<Error>)
    ensures err.None? <==> forall i :: 0 <= i < |lines| ==> !Fails(lines[i])
    ensures err.None? ==> urls == Urls(lines)
    ensures err.Some? ==> exists k :: (FirstFailure(lines, k)
      && err.value == ProcessLine(lines[k]).error && urls == Urls(lines[..k]))
  {
    urls := [];
    var i := 0;
    while i < |lines|
      invariant 0 <= i <= |lines|
      invariant forall j :: 0 <= j < i ==> !Fails(lines[j])
      invariant urls == Urls(lines[..i])
    {
      var o := ProcessLine(lines[i]);
      if o.Failed? {
        assert FirstFailure(lines, i);
        return urls, Some(o.error);
      }
      assert lines[..i + 1] == lines[..i] + [lines[i]];
      Seqs.FilterSnoc(lines[..i], lines[i], IsWritten);
      Seqs.MapSnoc(Seqs.Filter(lines[..i], IsWritten), lines[i], UrlOf);
      if o.Written? {
        urls := urls + [o.url];
      }
      i := i + 1;
    }
    assert lines[..i] == lines;
    err := None;
  }

  /** At most one URL per line, and every URL has the download shape. */
  lemma UrlsShape(lines: seq<string>)
    ensures |Urls(lines)| <= |lines|
    ensures forall k :: 0 <= k < |Urls(lines)| ==>
      |Urls(lines)[k]| > |BaseUrl| && Urls(lines)[k][..|BaseUrl|] == BaseUrl
  {
    var w := Seqs.Filter(lines, IsWritten);
    forall k | 0 <= k < |Urls(lines)|
      ensures |Urls(lines)[k]| > |BaseUrl| && Urls(lines)[k][..|BaseUrl|] == BaseUrl
    {
      assert IsWritten(w[k]);
      ProcessLineCases(w[k]);
    }
  }
}
