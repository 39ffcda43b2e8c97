# PMC Open Access indexer — a Dafny model

The indexer reads article XML from the PubMed Central Open Access bulk archives. For each article it builds one record and stores it in MongoDB:
- the article's pmid and pmc;
- an `_id` derived from them;
- the concatenated reference ids;
- the body text, with citation markers such as `[3]` or ` [4-8]` removed.

A pool of worker processes takes documents from a job queue. Each worker borrows an indexer handle from a handle queue for every document. Workers send progress ticks to a queue that a listener function would count; its process is created but never started. A separate script turns an FTP directory listing into the list of archive URLs to download.

The model has six modules:

- `Citation` covers the citation pattern of parser.py:37 and its `sub('', …)`. The model is a leftmost, non-overlapping scanner, proved to delete exactly the pattern's language.
- `Indexer` covers `MongoIndexer.index_document` up to the database insert. The external paragraph parser's output is an input sequence of `Paragraph` records. `unidecode` is a function parameter. A `KeyError` is an explicit `Skip` outcome.
- `Scenarios` holds worked examples of `index_document`.
- `Worker` covers the `worker` loop, the `listener` count and the dispatcher's jobs. They are modelled as a sequential state machine over a handle pool, a job sequence and a progress sequence.
- `Splitter` covers download_scripts/splitter.py.
- `Seqs` and `Wrappers` hold the reference definitions (`Filter`, `Map`, `Flatten`, `Join`, substring containment) and `Option`.

Three facts about the code that shape the model:
- **Ids are the parser's strings.** pmid and pmc are stored as the strings the parser returns. `-1` is stored only when no paragraph has the key.
- **A skipped document sends no progress tick.** The `continue` at parser.py:103 jumps over the `put` at line 105.
- **Citation stripping is not idempotent.** Deleting an inner marker can join the text around it into a new marker. Stripping `[[1]1]` gives `[1]`, and stripping that gives the empty string. Stripping leaves a text unchanged exactly when no marker occurs in it.

## Model

| member | source | states |
|---|---|---|
| Citation.Strip | parser.py:62 | `pattern.sub('', s)` never makes the text longer. What it deletes is pinned down by the lemmas below. |
| Citation.MatchLen | parser.py:37 | The length of the match at a position never exceeds the text, and a non-zero length is a string of the pattern's language. That language is an optional whitespace character followed by `[d]` with one digit, or `[d+-d+]`. |
| Citation.MatchLenComplete | parser.py:37 | Any prefix in the pattern's language is exactly the match found: the scanner's match is unique. |
| Citation.BracketLenComplete | parser.py:37 | A bracketed single-digit or range citation at the start of the text is measured exactly. |
| Citation.DigitRunUnique | parser.py:37 | A greedy `\d+` run is the unique maximal digit run. |
| Citation.StripUnchangedIff | parser.py:62 | Substituting the pattern away leaves the text unchanged if and only if no substring of it is a citation marker. |
| Citation.StripShrinks | parser.py:62 | If a marker matches anywhere, the substituted text is strictly shorter. |
| Citation.NoBracketUnchanged | parser.py:62 | Text without `[` passes through the substitution unchanged. |
| Citation.StripPlainPrefix | parser.py:62 | Plain text before the first bracket is copied through unchanged, as long as its last character does not start a match. |
| Citation.StripSingleCitation | parser.py:37 | A one-digit citation `[d]` is deleted together with one optional leading whitespace character `lead`. The text `a` before it is kept, provided `a` holds no `[` and, when there is no `lead`, `a` does not end in whitespace. |
| Citation.StripRangeCitation | parser.py:37 | A range citation `[x-y]`, with non-empty digit runs `x` and `y`, is deleted together with one optional leading whitespace character `lead`. The text `a` before it is kept, under the same two conditions on `a` as for a single-digit citation. |
| Citation.StripKeepsMultiDigit | parser.py:37 | A bracketed run of two or more digits without a dash, such as `[12]`, is kept, and the text after it is substituted as if on its own: `[12] shows` keeps `[12]`. |
| Citation.StripKeepsNonDigit | parser.py:37 | Brackets with no `[` inside whose content does not start with a digit, such as `[a]`, are kept, and the text after them is substituted as if on its own. |
| Citation.StripKeepsBracket | parser.py:37 | An opening bracket that starts no match is kept, along with the bracket-free text after it. |
| Citation.StripNotIdempotent | parser.py:62 | Substituting twice can remove more than substituting once. |
| Indexer.IndexDocument | parser.py:57-66 | An article is skipped (a `KeyError` escapes) if and only if some paragraph lacks `section`, `text` or `reference_ids`. |
| Indexer.ScanFailsIff | parser.py:51-66 | The paragraph loop raises if and only if some paragraph lacks one of the three fields. |
| Indexer.IdStep | parser.py:52-55 | One iteration keeps the identifier invariant. The variable holds the first truthy value seen, or the last value seen while none was truthy, or `None` when no paragraph had the key. |
| Indexer.ScanIds | parser.py:51-55 | After the loop, each identifier variable satisfies that invariant for the whole article. |
| Indexer.ScanTexts | parser.py:57-63 | After the loop, the collected segments are the cleaned texts of exactly the paragraphs with non-empty section and text, in order. |
| Indexer.ScanRefs | parser.py:65-66 | After the loop, the collected reference ids are the in-order concatenation of the paragraphs' lists. |
| Indexer.StoredIdIsFirstTruthy | parser.py:51-84 | A stored pmid/pmc is `-1` exactly when no paragraph has the key. Otherwise it is the value of the first paragraph whose value is non-empty, or `""` when every value is empty. A later value never replaces a non-empty one. |
| Indexer.CanonicalIdPrecedence | parser.py:70-90 | `_id` is `"pmc"` plus the stored pmc when any paragraph has a pmc key. Otherwise it is `"pmid"` plus the stored pmid when any has a pmid key. It is absent when neither key occurs. |
| Indexer.TextIsJoinOfQualifying | parser.py:57-68 | The stored text is the `"\n\n"`-join, in paragraph order, of `sub('', unidecode(text))` for exactly the paragraphs with non-empty section and text. It is `""` when there are none. |
| Indexer.RefIdsConcatenated | parser.py:65-66 | `ref_ids` is the in-order concatenation of every paragraph's reference list, duplicates kept. |
| Scenarios.CleanBackground | parser.py:62 | `"Background info[3]."` is cleaned to `"Background info."`. |
| Scenarios.CleanMethods | parser.py:62 | `"We did X[4-8]."` is cleaned to `"We did X."`. |
| Scenarios.TwoBodyParagraphs | parser.py:44-90 | Two body paragraphs with the same pmc and no pmid give `_id` `"pmc…"` and pmid `-1`. The reference lists are concatenated and the two cleaned texts are joined by a blank line. |
| Scenarios.MissingSectionSkips | parser.py:57 | A paragraph without a `section` key skips the whole article, even after a complete paragraph. |
| Worker.RunWorker | parser.py:94-107 | A worker's run leaves a suffix of the job queue. A worker blocked on the job queue has emptied it. A worker blocked on the handle queue has an empty pool. |
| Worker.HandlesConserved | parser.py:96-104 | No handle is created or duplicated: the handles left in the pool plus those never returned are the initial pool, as a multiset. |
| Worker.RunSignals | parser.py:104-107 | The progress items are one tick per successfully indexed document consumed. A single final `None` follows exactly when the worker left the loop. |
| Worker.RunLosses | parser.py:96-104 | Handles never returned: one per skipped document under the source's policy, none under the corrected one. Add one more for the handle held at the end, unless the worker blocks on the handle queue. |
| Worker.ExitStopsAtFirstStop | parser.py:97-99 | A worker that leaves the loop has consumed exactly the jobs up to the first `None` and left the later ones queued. |
| Worker.KeepOnSkipExits | parser.py:94-107 | Assume no other exception before the first `None`. Then a worker exits if and only if fewer documents were skipped than it had handles. If it exits, the later jobs stay queued and it has spent one handle per skip plus one. If it does not exit, it blocks on the handle queue with the `None` still queued. |
| Worker.SkipsExhaustPool | parser.py:100-104 | Assume a `None` is queued and no document before the first one raises an exception other than `KeyError`. Then as many skips before that `None` as handles leave the worker blocked forever on an empty handle queue, with its `None` never read. |
| Worker.OneSkipDeadlocks | parser.py:100-104 | A worker with one handle whose next document raises `KeyError` blocks forever on the handle queue. Its handle is lost and every later job, its `None` included, stays unread. |
| Worker.ReturnOnSkipExits | parser.py:94-107 | With the handle returned on skip, take a worker with at least one handle whose queue holds a `None`, where no document before the first `None` raises an exception other than `KeyError`. That worker exits at the first `None`. It leaves the later jobs queued and spends exactly one handle. |
| Worker.Listen | parser.py:21-22 | The listener stops exactly when a `None` arrives. Its count is the number of items before the first `None`, or all of them if none arrives. |
| Worker.ListenerCountsIndexed | parser.py:18-22 | Listening to a worker that exited counts exactly the documents it indexed successfully, then stops. |
| Worker.RunAll | parser.py:121-128 | The pool of W workers gives exactly one run per worker. The first worker runs on the whole dispatched queue from its own copy of the initial handle pool. |
| Worker.DispatchJobs | parser.py:130-136 | The job queue receives every document in order, then exactly one `None` per worker. |
| Worker.ReturnOnSkipPipelineTerminates | parser.py:130-136 | Assume handles are returned on skip, each worker starts with at least one handle, and no document raises an exception other than `KeyError`. Then W ≥ 1 workers given the documents and W terminators all exit, and the job queue ends empty. |
| Worker.ReturnOnSkipStopsOnly | parser.py:135-136 | Workers facing only terminators each take one and exit, and the queue ends empty. |
| Seqs.ContainsIff | download_scripts/splitter.py:10 | Python's substring test `sub in s` holds if and only if `sub` occurs at some offset of `s`. |
| Splitter.Split | download_scripts/splitter.py:8 | `split('"')` yields at least one piece, none containing a quote. It yields two or more exactly when the line holds a quote. |
| Splitter.SplitJoin | download_scripts/splitter.py:8 | Joining the pieces with `"` gives back the line. |
| Splitter.JoinSplit | download_scripts/splitter.py:8 | Quote-free pieces are recovered from their join: the split is the only such decomposition. |
| Splitter.NameBetweenQuotes | download_scripts/splitter.py:8 | The file name is exactly the text between the first and second quote. |
| Splitter.NameToEndOfLine | download_scripts/splitter.py:8 | With a single quote the name runs to the end of the line, line break included. |
| Splitter.ProcessLineCases | download_scripts/splitter.py:2-13 | A line without a quote raises IndexError. A name without `tar` raises AssertionError, even when it mentions `xml`. Otherwise an output line is written if and only if the name contains `xml`. That line is the base URL, the name and a line break, and the name can be read back from it. |
| Splitter.SplitListing | download_scripts/splitter.py:6-13 | The script stops with an error if and only if some line fails, and then at the first failing line, with that line's error. The file holds the URLs of the written lines before it, in input order, and nothing else. |
| Splitter.UrlsShape | download_scripts/splitter.py:12-13 | At most one URL per input line, each starting with the bulk-download base URL. |

## Left out

- The MongoDB client and `insert_one` (parser.py:40-42, 92) are an external store. The model ends with the record that would be inserted.
- `pubmed_parser.parse_pubmed_paragraph` is a foreign library. Its output is the input sequence of `Paragraph` records.
- `unidecode` is also a foreign library. It is a function parameter `translit`.
- Indexer.Paragraph: a `None` value under a present `section`, `text` or `reference_ids` key is written as the empty value. The source only tests their truthiness before use, and both are false.
- Indexer.Paragraph: a `None` value under a `pmid`/`pmc` key is not modelled, because the parser returns strings for these.
- Citation.IsDigit: `\d` is restricted to the ASCII digits. Python also matches other Unicode decimal digits. After `unidecode`, text holds ASCII only.
- Tar extraction (parser.py:24-32), `glob` and all file I/O (parser.py:130-133; download_scripts/splitter.py:4, 6, 15) are I/O plumbing.
- The listing is a sequence of lines, and the output file is the sequence of URLs written.
- Splitter.SplitListing: the URLs written before an exception are treated as kept in the file. Flushing on interpreter exit is a property of the runtime.
- Concurrency: `multiprocessing` pools and queues, forking, blocking and the interleaving of workers are not modelled.
  - Workers run one after another on a shared job sequence. A blocked worker is a final status.
  - Each worker starts from its own copy of the handle pool, because the handle queue is a thread-level queue that every forked worker inherits a copy of.
- Worker.RunWorker: the outcome of indexing a document is a function parameter. Exceptions other than `KeyError` end the worker (`Crashed`). What the pool process does after that is not modelled.
- `time.sleep`, the `tqdm` progress bars and `print` are display and timing only.
- Worker.RunAll: the contract does not state that each later worker starts on the queue its predecessor left; that hand-on is only the function's definition, and `Worker.ReturnOnSkipPipelineTerminates` is what relies on it.
- The worker count `int(cpu_count * 0.7)` (parser.py:111) is floating-point and host-dependent. The worker count is a parameter.
- The listener process is created but never started (parser.py:119), so `supervisor.join()` at line 140 is not modelled. The listener's counting itself is modelled by `Worker.Listen`.

## Findings

| source | as written | input that shows it | evidently intended | confidence | as-written member | corrected member |
|---|---|---|---|---|---|---|
| parser.py:100-104 | On `KeyError` the loop `continue`s before `indexer_q.put(indexer)`, so the indexer handle taken at line 96 is never returned. | A worker with one handle whose job queue holds one document that raises `KeyError`, then `None`. The worker blocks forever on `indexer_q.get()` and never reads its `None`. In general, as many skipped documents as handles in one worker deadlock it. | Put the handle back on skip, as on success, so that every worker reaches its terminator. | medium, not executed | Worker.OneSkipDeadlocks | Worker.ReturnOnSkipPipelineTerminates |
