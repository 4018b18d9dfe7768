# Crawler, word search, regexp mux and zip index — a verified model

The repository holds four small teaching programs. The project models the
sequential rule at the core of each one.

- **crawler** (`crawler.dfy`, module `Crawler`). A web crawler is
  modelled as a state machine with atomic steps:
  - `linkq` is the bounded queue of addresses to fetch, with capacity 1000.
  - `resultsq` is the buffered channel of link batches found on fetched
    pages, with capacity 1000.
  - `pending` holds the batches of publish goroutines that have not sent
    them yet.
  - `seen` is the orchestrator's dedup set.
  - A worker step pops one address and fetches it through an abstract
    fetcher. A successful fetch that finds links hands them, as one batch,
    to a publish goroutine.
  - A delivery step lets any one publish goroutine send its batch onto
    `resultsq`, so batches can arrive in any order.
  - An orchestrator step pops one batch. It marks every unseen link seen
    and pushes it onto `linkq`.
  - The invariant `Crawler.Crawler.Valid` is proved to hold across every step:
    - the dedup loop never pushes an address twice;
    - `seen` is exactly the set of pushed addresses;
    - `linkq` is the un-popped suffix of everything enqueued;
    - `linkq` stays within its capacity.
- **concur** (`concur.dfy`, module `WordSearch`). The word search works
  in two stages:
  - Every file's tokens are filtered to those containing the query, keeping
    file order.
  - The per-file results are concatenated in arrival order, sorted, and
    joined with `", "`.
  - The sorted output is proved identical for every arrival order.
- **regexpmux** (`regexpmux.dfy`, module `RegexpMux`). A mux is a list of
  (pattern, handler) entries.
  - A request calls every handler whose pattern matches, in registration
    order, until a handler panics; the panic ends the dispatch.
  - It answers 404 when no handler matched.
  - The two course patterns `/v1/courses/([^/]+)$` and
    `/v1/courses/([^/]+)/([^/]+)$` are hand-written matchers.
  - Each matcher is proved equal to the regular-expression semantics
    (unanchored start, `$` end). Its captures are proved to be exactly the
    path's trailing segments.
- **nodezip** (`nodezip.dfy`, module `NodeZip`). A fold groups zip records
  into buckets by lower-cased city, keeping input order within each bucket.
  - The city route looks up the lower-cased name, answering with the bucket
    or with a 404.
  - The greeting route answers `Hello <name>!`.

`wrappers.dfy` holds the `Option` type.

Two details of the crawler are modelled exactly as the code behaves:

- **The seed.** The `seen` map exists "so that we don't fetch them again"
  (crawler/main.go:100-101). The seed, though, is pushed onto `linkq` at
  crawler/main.go:98 and never added to `seen`, which starts empty at
  crawler/main.go:102. A page linking back to the seed therefore makes it
  fetched once more. `Crawler.SeedRevisited` exhibits this, and
  `Crawler.EnqueuedAtMost` and `Crawler.Crawler.FetchedAtMostOnce` show
  that no other address is enqueued or fetched twice.
- **The sleep.** The `continue` at crawler/main.go:33 skips the sleep at
  crawler/main.go:42, so only a successful fetch is followed by the delay.

## Model

| member | source | states |
|---|---|---|
| Crawler.Fresh | crawler/main.go:112-123 | The links one pass pushes, walking the batch in order. It never has more links than the batch. |
| Crawler.FreshMembers | crawler/main.go:112-123 | A link is pushed iff it occurs in the batch and was not seen before. No link is pushed twice, even when the batch repeats it. |
| Crawler.FreshAppend | crawler/main.go:112-123 | Walking a batch in two pieces, with the second piece starting from everything the first saw, pushes exactly what one walk pushes. |
| Crawler.DedupPreservesDistinct | crawler/main.go:114-121 | If the earlier pushes are distinct and form the seen set, they still do after one more batch. The new seen set is the old one plus the batch's links. |
| Crawler.EnqueuedAtMost | crawler/main.go:98-121 | Over a run, a non-seed address is enqueued at most once, and exactly once iff the dedup loop pushed it. The seed is enqueued at most twice. |
| Crawler.WalkBatch | crawler/main.go:108-124 | The inner loop over one batch. It yields the new `seen` and `linkq`, with `linkq` extended by exactly the fresh links examined, and never exceeds capacity 1000. It stops early only before an unseen link when the queue is full, and runs to the end when there is room for the whole batch. |
| Crawler.Crawler.constructor | crawler/main.go:81-102 | Start-up: `linkq` holds only the seed, `seen` is empty and does not contain the seed, and `resultsq` and the pending batches are empty. |
| Crawler.Crawler.WorkerStep | crawler/main.go:24-64 | Pops the head address, or does nothing on an empty queue. A fetch error publishes nothing and skips the 500 ms delay. An empty link list publishes nothing. A non-empty list becomes exactly one pending batch, handed to a publish goroutine. `seen` and `resultsq` are untouched and the invariant is kept. |
| Crawler.Crawler.Deliver | crawler/main.go:60-62 | A publish goroutine's send: the chosen pending batch, whichever it is, is appended to `resultsq` and leaves the pending batches. On a full `resultsq` (capacity 1000) the send blocks and nothing changes. Everything else is unchanged and the invariant is kept. |
| Crawler.Crawler.OrchestratorStep | crawler/main.go:108-124 | Pops the head batch and walks it in order. `seen` grows by the links examined, and `linkq` gains exactly those links unseen at the moment they were examined. A push onto a full `linkq` leaves the unexamined rest at the head of `resultsq`. The invariant is kept, so every queued non-seed address is in `seen`. |
| Crawler.Crawler.FetchedAtMostOnce | crawler/main.go:100-121 | In every reachable state, an address other than the seed has been fetched at most once. |
| Crawler.Crawler.Round | crawler/main.go:24-124 | With nothing in flight, one fetch of the head address, its delivery and the orchestrator's walk: `seen` gains the page's links and `linkq` gains exactly those not seen before. |
| Crawler.SeedRevisited | crawler/main.go:98-116 | A page linking back to its own seed: the seed is fetched twice and then ends up in `seen` with `linkq` empty. |
| Crawler.BatchesOvertake | crawler/main.go:60-62 | Workers fetch "a" and then "b", yet b's batch reaches `resultsq` first: batches can arrive out of fetch order. |
| WordSearch.ContainsEmpty | concur/main.go:36 | Every string contains the empty string. |
| WordSearch.ProcessFile | concur/main.go:30-39 | The scan loop returns exactly the tokens containing the query, in file order. |
| WordSearch.MatchesCount | concur/main.go:31-39 | Each token occurs in the result as often as in the file when it contains the query, and otherwise not at all. |
| WordSearch.MatchesAppend | concur/main.go:31-39 | Filtering a concatenation concatenates the filtered parts. |
| WordSearch.MatchesEmptyQuery | concur/main.go:36 | With an empty query every token matches, so the result is the whole file. |
| WordSearch.LessEqReflexive | concur/main.go:88 | Byte-wise string order is reflexive. |
| WordSearch.LessEqTotal | concur/main.go:88 | Byte-wise string order is total. |
| WordSearch.LessEqAntisymmetric | concur/main.go:88 | Byte-wise string order is antisymmetric. |
| WordSearch.LessEqTransitive | concur/main.go:88 | Byte-wise string order is transitive. |
| WordSearch.SortedUnique | concur/main.go:88 | Two sorted lists with the same multiset of strings are equal. |
| WordSearch.SortStrings | concur/main.go:88 | Sorts the slice in place: the result is sorted and a permutation of the input. |
| WordSearch.GatherAppend | concur/main.go:77-85 | Receiving in two runs concatenates what each run receives. |
| WordSearch.GatherOccurrences | concur/main.go:77-85 | A word's count in the received total is the sum of its counts in the received slices. |
| WordSearch.GatherPermutation | concur/main.go:77-85 | Any two arrival orders of the same results give totals that are permutations of each other. |
| WordSearch.ArrivalOrder | concur/main.go:60-85 | Arrivals that are a permutation of the files receive exactly one result per file, `len(fileinfos)` receives in all. |
| WordSearch.ProcessDir | concur/main.go:51-91 | Receives one result per file. The total is the concatenation of each file's matches in arrival order. It is sorted into a permutation of the total, which has the same multiset as the matches in file order. The printed line joins it with `", "`. |
| WordSearch.Join | concur/main.go:91 | Like `strings.Join`: the length of the result is the parts' total length plus one separator between each pair of neighbours. |
| WordSearch.JoinAppend | concur/main.go:91 | Joining two non-empty lists gives their joins with one separator between them. |
| WordSearch.ArrivalOrderIrrelevant | concur/main.go:77-88 | The sorted output is the same list for every arrival order. |
| RegexpMux.LastSlash | regexpmux/main.go:14 | The index of the last '/', or -1 when there is none. No '/' follows it. |
| RegexpMux.CourseCaptureCorrect | regexpmux/main.go:14-17 | The course capture is `s` iff `s` is non-empty and slash-free and the path ends with `/v1/courses/` + `s`. |
| RegexpMux.CourseCaptureIsMatch | regexpmux/main.go:14 | A capture exists iff the pattern matches somewhere in the path, with the match ending at the end of the path. |
| RegexpMux.RelationCaptureCorrect | regexpmux/main.go:16-17 | The relation captures are `(a, b)` iff both are non-empty and slash-free and the path ends with `/v1/courses/` + `a` + `/` + `b`. |
| RegexpMux.RelationCaptureIsMatch | regexpmux/main.go:16 | Captures exist iff the relation pattern matches, with the match ending at the end of the path. |
| RegexpMux.PatternsDisjoint | regexpmux/main.go:14-16 | No path matches both course patterns. |
| RegexpMux.CourseCapture | regexpmux/main.go:84 | `FindStringSubmatch` on the course pattern: any capture is a non-empty, slash-free segment. CourseCaptureCorrect and CourseCaptureIsMatch fix its value and when it exists. |
| RegexpMux.RelationCapture | regexpmux/main.go:99 | `FindStringSubmatch` on the relation pattern: both captures are non-empty, slash-free segments. RelationCaptureCorrect and RelationCaptureIsMatch fix their values and when they exist. |
| RegexpMux.Matches | regexpmux/main.go:66 | `MatchString` for each pattern holds iff the regular expression, unanchored at the start and ending at `$`, matches the path. |
| RegexpMux.Reply | regexpmux/main.go:80-107 | A handler function writes a reply exactly when its own pattern matches. Otherwise indexing the missing groups panics. CourseReply and RelationReply give the messages. |
| RegexpMux.CourseReply | regexpmux/main.go:84-88 | On a path ending with `/v1/courses/S`, the course handler replies "you asked for course S". |
| RegexpMux.RelationReply | regexpmux/main.go:99-104 | On a path ending with `/v1/courses/A/B`, the relation handler replies "you asked for the B of course A". |
| RegexpMux.MatchingHandlersAppend | regexpmux/main.go:64-71 | The handlers the loop reaches for a concatenation of entries are those of each part, in order. |
| RegexpMux.MatchingHandlersMembers | regexpmux/main.go:64-71 | A handler is reached iff some entry with that handler has a pattern matching the path. |
| RegexpMux.MatchingHandlersNone | regexpmux/main.go:64-76 | No handler is reached iff no entry's pattern matches. |
| RegexpMux.Dispatched | regexpmux/main.go:64-71 | Of the handlers called in turn, those that run are a prefix: none before the last panics, and the prefix is shorter than the list only when its last handler panics. |
| RegexpMux.DispatchedAll | regexpmux/main.go:64-71 | When no handler panics, all of them run. |
| RegexpMux.DispatchedFirstPanic | regexpmux/main.go:64-71 | The first handler that panics is the last one to run; no later handler runs. |
| RegexpMux.RegExpMux.constructor | regexpmux/main.go:35-40 | A new mux has no entries. |
| RegexpMux.RegExpMux.Handle | regexpmux/main.go:43-49 | Appends one entry at the end and leaves the earlier entries unchanged. |
| RegexpMux.RegExpMux.HandleFunc | regexpmux/main.go:52-55 | Has the same effect as `Handle` with the function wrapped as a handler. |
| RegexpMux.RegExpMux.ServeHTTP | regexpmux/main.go:60-77 | Calls the matching entries' handlers in registration order, possibly several, up to and including the first that panics. It reports a panic iff a called handler panicked, and then writes nothing more. Without a panic every matching handler was called, and it answers 404 "not found" iff no entry matched. |
| RegexpMux.ServeMain | regexpmux/main.go:114-120 | With the program's two registrations: a course path calls only the course handler, and a relation path calls only the relation handler. Any other path gets a 404. Every handler called can produce its reply, so no request panics. |
| RegexpMux.MisroutedDispatch | regexpmux/main.go:64-71 | With the relation handler registered behind the course pattern and another handler after it, both entries match "/v1/courses/1", and only the relation handler runs, since it panics. |
| RegexpMux.PanicStopsDispatch | regexpmux/main.go:60-77 | The same scenario through a mux: one handler is called, the request panics, and no 404 is written. |
| NodeZip.Lower | nodezip/index.js:10 | Lower-casing keeps the length and maps each character independently. |
| NodeZip.LowerSameUpToCase | nodezip/index.js:29 | Two names lower-case to the same key iff they differ only in the case of letters. |
| NodeZip.BuildIndex | nodezip/index.js:9-17 | The reduce builds exactly the index with one bucket per lower-cased city. Each bucket holds that city's records. |
| NodeZip.CityIndexSnoc | nodezip/index.js:11-15 | Folding one more record appends it to the bucket of its own city, creating the bucket when absent. All other buckets are unchanged. |
| NodeZip.IndexKeys | nodezip/index.js:10-13 | A key is present iff some record's lower-cased city is that key. |
| NodeZip.BucketMember | nodezip/index.js:10-15 | Every record is in the bucket keyed by its own lower-cased city. |
| NodeZip.BucketCount | nodezip/index.js:10-15 | A bucket holds each record of its city as often as the input does, and no record of another city. Every record lands in exactly one bucket. |
| NodeZip.NoEmptyBucket | nodezip/index.js:12-15 | No bucket of the index is empty. |
| NodeZip.BucketAppend | nodezip/index.js:9-15 | Buckets keep input order: the bucket of a concatenation is the concatenation of the buckets. |
| NodeZip.CityKeys | nodezip/index.js:9-17 | The index's keys, each once: a city is listed iff some record has it. |
| NodeZip.BucketSizesTotal | nodezip/index.js:9-17 | The bucket sizes over all keys add up to the number of input records. |
| NodeZip.LookupCity | nodezip/index.js:28-35 | The route replies with the bucket as JSON iff the lower-cased name is a key, and otherwise with 404 "invalid city name". LookupCityCorrect relates it to the records. |
| NodeZip.LookupCityCorrect | nodezip/index.js:28-35 | On the built index, a known city, matched case-insensitively, gets its bucket as JSON. An unknown one gets 404 "invalid city name". |
| NodeZip.LookupCaseInsensitive | nodezip/index.js:29 | Names differing only in letter case get the same reply. |
| NodeZip.Hello | nodezip/index.js:37-39 | The reply is "Hello ", then the name, then "!". |
| NodeZip.HelloInjective | nodezip/index.js:38 | Different names get different greetings. |

## Left out

- **Goroutines and blocking.** The model does not capture goroutine
  scheduling or channel blocking in the crawler.
  - Each worker, delivery and orchestrator step is atomic, and the
    scheduler is whoever calls the steps.
  - A worker's pop and its fetch form one step. In the program, other
    workers and the orchestrator can run between them. Only the order in
    which batches reach `resultsq` is observable, and `Deliver` lets any
    pending batch go next.
  - A push onto a full `linkq` is modelled as the orchestrator stopping
    mid-batch and resuming later. The unexamined rest of that batch goes
    back to the head of `resultsq`, where it takes one of the 1000 slots.
    In the program that batch has already left the channel (its receive is
    at crawler/main.go:108), so one more publish goroutine could still send.
- **Worker pool and liveness.** The 1000-worker pool is left out: any
  number of workers is modelled by repeated worker steps. Liveness,
  fairness and termination are not claimed (the crawl never ends).
- **`getPageLinks`.** It is not part of this model. It is the `Fetcher`
  parameter, with None standing for its error.
- **Console, sleep and arguments.** `fmt.Printf`, `fmt.Println`, the usage
  text, `os.Args` and `os.Exit` are left out as console I/O and process
  entry. The 500 ms sleep is returned as the `delay` value instead of
  being slept.
- **Crawler whole-graph scenario.** An arbitrary fetcher graph run to
  quiescence is not proved. Only the invariants of single steps and the
  seed scenario are.
- **Word-search I/O.** File opening, `bufio.Scanner`, `ioutil.ReadDir`,
  `path.Join` and `log.Fatal` are file I/O. Each file is given as its
  sequence of scanned tokens, so scanner errors and the scanner's token-size
  limit are not modelled.
- **Word-search goroutines.** The per-file goroutines and the timing in
  `main` are left out. Arrival order is a parameter: any permutation of
  the files.
- WordSearch.SortStrings: it models `sort.Strings` by what it
  guarantees (sorted, a permutation) through an insertion sort. It does not
  model Go's particular algorithm, which is not observable in the result
  because any two sorted permutations are equal (`WordSearch.SortedUnique`).
- **The Go regexp engine.** It is left out. Only the two fixed patterns
  are modelled, as hand-written matchers proved equal to their regular
  expressions.
- **HTTP plumbing.** `http.ListenAndServe`, response headers, and the
  response writer are left out as network I/O. A reply is the body a
  handler would write.
- **Opaque handlers.** Handlers other than the two course functions are
  opaque (`Other`): the model records that they are called, not what they do.
- **Handler panics.** A course handler on a path that does not match its
  own pattern panics on indexing the nil match slice (regexpmux/main.go:88,
  :104). `Reply` is None there, and `ServeHTTP` stops at such a call and
  reports the panic. The recovery in net/http, which logs the panic and
  closes the connection, is left out. Opaque handlers are taken never to
  panic.
- **nodezip start-up.** Loading `zips.json`, the start-up log lines,
  Express, `cors`, `morgan` and `app.listen` are left out as I/O and
  framework.
- **Record fields.** The model's record has zip, city and state fields;
  only `city` is read (nodezip/index.js:10), and records are sent back
  whole (nodezip/index.js:33).
- NodeZip.Lower: it lower-cases ASCII letters only. JavaScript's
  Unicode `toLowerCase` is not modelled.
- **String encoding.** Strings are sequences of Unicode scalar values.
  Go strings are bytes, so a scanned line of invalid UTF-8 cannot be
  represented. `WordSearch.LessEq` agrees with the byte order of
  `sort.Strings` only on valid UTF-8. JavaScript strings are UTF-16 code
  units, which the model does not represent either.
- **Object-prototype keys.** JavaScript keys such as `"constructor"` are
  not modelled: the index is a plain map.
- **Empty buckets.** A lookup treats presence of the key as success. This
  agrees with JavaScript's truthiness because an array is always truthy and
  no bucket is ever empty (`NodeZip.NoEmptyBucket`).
- **nodemongo.** `nodemongo/handlers/tasks.js` is not part of this model.
  It only forwards to a store and a validator whose code is not available.
