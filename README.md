# Spectra, modelled in Dafny

Spectra profiles a directory tree and governs the files in it. This project models
its sequential core:

- **The scanner** of `spectra-core`. It folds a directory walk into counters, a
  per-extension map and a bounded top-K buffer of the largest files. That buffer is a
  `BinaryHeap` under the reversed size order of `FileRecord`. There are two copies of
  the scan, in `lib.rs` and `scanner.rs`. Both are proved against one specification,
  `ScanSpec.ScanResult`.
- **The governance engine** of the CLI: policies built from a rule (an optional
  extension, minimum size and minimum age) and an action, `evaluate` and `execute`.
  The filesystem is a class whose set of files `execute` updates.
- **The CLI glue**:
  - the conversions from the core records to the CLI's analysed records;
  - the hard-coded policy mapping of the server's policy list;
  - the top-extension selections for the upload body and the human report;
  - the nested file × policy governance pass, run with `dry_run = !enforce`;
  - the labelling of the top files with entropy and risk level.
- **The filename risk classifier**: a gate of fifteen case-insensitive patterns,
  then first-match tiers Critical, High, Medium and Low.
- **The telemetry server**:
  - a snapshot store that `ingest` appends to;
  - the agent history, newest first;
  - the velocity report between the latest snapshots at or before two bounds, with
    its per-extension deltas sorted by absolute size change.
- **The desktop app's size tree**: a depth-limited recursive walk in which directories
  sum the sizes of the children that produced a node, plus a mock entropy table.

The model is imperative where the code is:

- the scan loops, the heap, the in-place `reverse`;
- the governance loops and `remove_file`;
- the delta loops of `get_velocity`;
- the directory loop of the tree walk;
- the analysis loop over the top files.

Each method is proved against a specification function or predicate. The lemmas state
what the code promises about those: top-K correctness, order, counting, round trips,
and the tiers of the classifier.

The files, by concern:

- `options.dfy`, `strings.dfy` and `paths.dfy` hold the string and path helpers the
  code relies on: ASCII lower-casing, `contains`/`ends_with`, and `Path::file_name` and
  `Path::extension` on `/`-separated paths.
- `fs.dfy` holds the walk's entries and metadata, and a filesystem class.
- `models.dfy`, `sorting.dfy`, `topk.dfy`, `scan_spec.dfy`, `core_scanner.dfy` and
  `models_scanner.dfy` hold the scanner.
- `governance.dfy` holds the engine.
- `heuristics.dfy` holds the classifier, and `heuristics_examples.dfy` its verdicts on
  the names its tests use.
- `server.dfy` holds the server, and `wire.dfy` its JSON decoding of an ingest body.
- `cli.dfy` holds the CLI glue.
- `tree.dfy` holds the size tree.

The code and its comments disagree in two places. The model follows the code in both:

- **The order of `top_files`.** The comment at spectra-core/src/lib.rs:103 says "sort
  descending". `into_sorted_vec` sorts in ascending order under the reversed order,
  which means descending by size, and the `reverse()` that follows makes `top_files`
  **ascending** by size. `ScanSpec.ScanResult` and `ScanSpec.AscendingSizes` state the
  ascending order.
- **The `credentials` gate.** The gate pattern is `credentials`, in the plural, while
  the High tier tests `credential`. So `credential.txt` is classified `None`
  (`HeuristicsExamples.SingularCredentialIsUngated`). The plural `credentials.json` is
  High. This is how the code behaves; it is not reported as a bug.

## Model

| member | source | states |
|---|---|---|
| Models.NatCmp | spectra-core/src/models.rs:14 | `u64::cmp` is Less, Equal or Greater exactly when the first size is smaller than, equal to or larger than the second |
| Models.Cmp | spectra-core/src/models.rs:12-16 | `FileRecord::cmp` is reversed: Less exactly when the first file is larger, Equal exactly when the sizes are equal, Greater exactly when it is smaller |
| Models.PartialCmp | spectra-core/src/models.rs:18-22 | `partial_cmp` is always `Some`, with the same sense as `cmp` |
| Models.CmpAntisymmetric | spectra-core/src/models.rs:12-16 | `cmp(a, b)` is the reverse of `cmp(b, a)` |
| Models.CmpTransitive | spectra-core/src/models.rs:12-16 | `cmp` is transitive, both for "not Greater" and for "Less", so it is a total preorder on sizes |
| Models.CmpEqualIgnoresPath | spectra-core/src/models.rs:5-16 | `cmp` is Equal exactly when the sizes agree, whatever the paths; two records with equal sizes and different paths compare Equal but are not `==` |
| Models.AddToExtension | spectra-core/src/lib.rs:79-84 | `entry(ext).or_default()` with `count += 1` and `size += size`: a new key gets `(1, size)`, an existing key gets one more file and `size` more bytes, and every other key is unchanged |
| Models.CountSumAdd | spectra-core/src/lib.rs:81-83 | each file with an extension adds exactly one to the sum of the map's counts |
| Fs.Flatten | spectra-core/src/lib.rs:71 | `into_iter().flatten()` keeps the `Ok` entries of the walk and never lengthens it |
| Fs.FlattenMembers | spectra-core/src/lib.rs:71 | an entry survives the flattening exactly when it was an `Ok` item of the walk |
| Fs.FlattenAppend | spectra-core/src/lib.rs:71 | flattening distributes over concatenation, so the walk can be taken one item at a time |
| Fs.FileSystem.RemoveFile | cli/src/governance/engine.rs:68 | `remove_file` succeeds exactly when the file is present and not protected, and removes exactly that path; the protected set is unchanged |
| Paths.FileName | cli/src/analysis/heuristics.rs:51-54 | `Path::file_name` is a normal name (no `/`, not `.` or `..`) that ends the path, once trailing separators and `.` components after a separator are skipped |
| Paths.NameExtension | spectra-core/src/lib.rs:79 | `Path::extension` of a name is the text after its last dot. It contains no dot and is shorter than the name. There is none exactly for `..`, a dotless name or a name whose only dot is its first character |
| Paths.Extension | spectra-core/src/lib.rs:79 | a path without a file name has no extension |
| Paths.Join | spectra-core/src/lib.rs:121 | `dir.join(name)` starts with the directory and ends with the name |
| Paths.FileNameOfJoin | spectra-core/src/lib.rs:121 | the file name of `dir.join(name)` is `name` |
| Paths.ExtensionOfJoin | spectra-core/src/lib.rs:121 | the extension of `dir.join(name)` is the extension of `name` |
| Paths.ExtensionOfStem | spectra-core/src/lib.rs:79 | a file `stem.ext` with dotless parts has extension `ext` |
| Paths.RootHasNoFileName | app/src-tauri/src/lib.rs:46-50 | the root `/` and the empty path have no file name |
| Paths.ParentHasNoFileName | cli/src/analysis/heuristics.rs:51-54 | a path ending in `..` has no file name |
| Paths.FileNameOfFile | cli/src/analysis/heuristics.rs:51-54 | the file name of `dir/test.txt` is `test.txt` |
| Paths.FileNameOfTrailingSlash | app/src-tauri/src/lib.rs:47-50 | a trailing separator is ignored: the file name of `dir/sub/` is `sub` |
| Paths.CurDirSkipped | app/src-tauri/src/lib.rs:47-50 | a trailing `.` component is skipped: the file name of `foo.txt/.` is `foo.txt` |
| Paths.CurDirAndSeparatorsSkipped | app/src-tauri/src/lib.rs:47-50 | `.` components and separators at the end are both skipped: the file name of `foo.txt/.//` is `foo.txt` |
| Paths.CurDirHasNoFileName | app/src-tauri/src/lib.rs:46-50 | `.`, `/.` and `./` have no file name |
| Paths.TxtExtension | spectra-core/src/lib.rs:79 | `test.txt` has extension `txt` |
| Paths.LastDotExtension | spectra-core/src/lib.rs:79 | `archive.tar.gz` has extension `gz`, after the last dot |
| Paths.LeadingDotNoExtension | spectra-core/src/lib.rs:79 | `.env` has no extension |
| Paths.DotlessNoExtension | spectra-core/src/lib.rs:79 | `Makefile` has no extension |
| Paths.TrailingDotEmptyExtension | spectra-core/src/lib.rs:79 | `notes.` has the empty extension |
| Strings.Lower | cli/src/analysis/heuristics.rs:57-58 | `to_lowercase` keeps the length and lowers each ASCII capital, leaving every other character alone |
| Strings.LowerIdempotent | cli/src/analysis/heuristics.rs:57-61 | lower-casing twice is lower-casing once |
| TopK.FileHeap.constructor | spectra-core/src/lib.rs:69 | the heap starts empty |
| TopK.FileHeap.Push | spectra-core/src/lib.rs:87-90 | `push` adds exactly the record |
| TopK.FileHeap.Len | spectra-core/src/lib.rs:92 | `len` is the number of records held |
| TopK.FileHeap.Pop | spectra-core/src/lib.rs:92-94 | `pop` on an empty heap gives nothing. Otherwise it removes and returns one greatest record under the reversed order, a record no larger than any other held. The rest is kept |
| TopK.FileHeap.IntoSortedVec | spectra-core/src/lib.rs:104 | `into_sorted_vec` is a permutation of the heap, ascending under `cmp`, so descending by size |
| TopK.PushWithinLimit | spectra-core/src/lib.rs:87-94 | a push that leaves the heap within `top_limit` keeps it the top-K of what was seen |
| TopK.PushPopKeepsTopK | spectra-core/src/lib.rs:87-94 | pushing onto a full heap and popping a smallest record keeps the heap exactly `min(k, seen)` records, all at least as large as every evicted one |
| TopK.TopKPermutation | spectra-core/src/lib.rs:104-105 | reordering a top-K result (sorting, reversing) keeps it a top-K result |
| TopK.TopKSizesUnique | spectra-core/src/lib.rs:92-94 | any two top-K results of the same input have the same multiset of sizes; only the choice among equal sizes is open |
| TopK.SortedPrefixIsTopK | spectra-core/src/lib.rs:92-94 | the first `min(k, n)` records of the input sorted by descending size are a top-K result |
| TopK.TopKMatchesSortedPrefix | spectra-core/src/lib.rs:92-94 | every top-K result has the sizes of the `k` largest files seen |
| Sorting.Reversed | spectra-core/src/lib.rs:105 | the reverse has the same length, with element `k` taken from position `n - 1 - k` |
| Sorting.ReverseInPlace | spectra-core/src/lib.rs:105 | `Vec::reverse` in place: the array becomes the reverse of its old contents |
| Sorting.ReversedOrder | spectra-core/src/lib.rs:104-105 | reversing a sequence that is non-increasing by a key makes it non-decreasing, with the same elements |
| Sorting.SortDescBy | cli/src/main.rs:154 | `sort_by(|a, b| b.key.cmp(&a.key))` keeps the length |
| Sorting.SortDescByPermutes | cli/src/main.rs:153-154 | the sort is a permutation of its input |
| Sorting.SortDescBySorted | cli/src/main.rs:154 | the sort is non-increasing by the key |
| Sorting.PrefixKeepsLargest | cli/src/main.rs:155-157 | after a descending sort, `take(n)` keeps entries whose keys are at least those of every entry left out |
| ScanSpec.FileRecordsMembers | spectra-core/src/lib.rs:72-76 | the counted files are exactly the entries whose metadata reads as a regular file, at most one per entry |
| ScanSpec.TotalSizeIsSum | spectra-core/src/lib.rs:74-76 | `total_size_bytes` is the sum of the sizes of the counted files |
| ScanSpec.ExtensionMapMatchesKeyStat | spectra-core/src/lib.rs:79-84 | each key of the extension map holds the count and total size of the files with that lower-cased extension; a key is absent exactly when no such file was seen |
| ScanSpec.CountedFilesAreFiles | spectra-core/src/lib.rs:73-84 | every counted file is paired with the lower-cased extension of its path, in walk order |
| ScanSpec.ExtensionKeyLowered | spectra-core/src/lib.rs:80 | an extension key is already lower-case |
| ScanSpec.ExtensionKeysLowered | spectra-core/src/lib.rs:80-81 | every key of the extension map is lower-case |
| ScanSpec.ExtensionCountBound | spectra-core/src/lib.rs:79-84 | the map's counts sum to at most the number of counted files |
| ScanSpec.ExtensionCountsBounded | spectra-core/src/lib.rs:73-84 | the map's counts sum to at most `total_files` (files without an extension are counted only in the totals), and every key is lower-case |
| ScanSpec.SkippedEntry | spectra-core/src/lib.rs:72-98 | an entry whose metadata fails, or which is neither file nor directory, changes no counter and no map entry |
| ScanSpec.DirectoryEntry | spectra-core/src/lib.rs:95-97 | a directory adds one to `total_folders` and changes nothing else |
| ScanSpec.FileEntry | spectra-core/src/lib.rs:73-90 | a file adds itself to the counted files, its size to the total and, when it has an extension, one file and its size to that key; `total_folders` is unchanged |
| ScanSpec.WalkErrorIgnored | spectra-core/src/lib.rs:71 | a walk error changes nothing |
| ScanSpec.AscendingSizes | spectra-core/src/lib.rs:103-105 | `top_files` lists sizes in ascending order |
| ScanSpec.ScanResultsAgree | spectra-core/src/lib.rs:63-105 | two scans of the same walk have equal counters and extension maps, whatever their limits and durations; with equal limits their top files have the same sizes in the same order |
| ScanSpec.TopFilesAreLargest | spectra-core/src/lib.rs:87-105 | `top_files` holds at most `top_limit` of the counted files, and its sizes are those of the `top_limit` largest |
| ScanSpec.ZeroLimit | spectra-core/src/lib.rs:92-94 | with `top_limit == 0`, `top_files` is empty |
| ScanSpec.TestTxtKey | spectra-core/src/lib.rs:121 | `dir/test.txt` has extension key `txt` |
| ScanSpec.SingleFileTotals | spectra-core/src/lib.rs:119-129 | a walk of a directory holding one 12-byte `test.txt` counts that one file, 12 bytes and one folder, the root |
| ScanSpec.SingleFileCounts | spectra-core/src/lib.rs:119-130 | that walk's extension map is `{"txt": (1, 12)}` |
| ScanSpec.SingleFileExample | spectra-core/src/lib.rs:119-132 | with limit 5, that walk gives `total_files == 1`, a positive total size, a `txt` count of 1, and one top file |
| CoreScanner.ScanPass.constructor | spectra-core/src/lib.rs:63-69 | the pass starts from the root, the limit, zero counters, an empty map and an empty heap |
| CoreScanner.ScanPass.Visit | spectra-core/src/lib.rs:72-98 | one iteration of the loop keeps the pass's invariant: the counters, map and heap are those of the entries seen so far |
| CoreScanner.ScanPass.VisitFile | spectra-core/src/lib.rs:73-94 | the file branch: counters and map updated, then the record offered to the heap |
| CoreScanner.ScanPass.Offer | spectra-core/src/lib.rs:87-94 | push then, when over `top_limit`, pop: the heap stays the top-K of the files offered, rejected records recorded, counters untouched |
| CoreScanner.ScanPass.Finish | spectra-core/src/lib.rs:101-105 | the duration is recorded and `into_sorted_vec` then `reverse` give a result satisfying the scan specification |
| CoreScanner.Scanner.constructor | spectra-core/src/lib.rs:52-57 | `Scanner::new` keeps the root and the limit |
| CoreScanner.Scanner.Scan | spectra-core/src/lib.rs:60-108 | `scan` of `lib.rs`, over the flattened walk, meets the scan specification |
| ModelsScanner.Scanner.constructor | spectra-core/src/scanner.rs:16-21 | `Scanner::new` keeps the root and the limit |
| ModelsScanner.Scanner.Scan | spectra-core/src/scanner.rs:24-74 | `scan` of `scanner.rs`, which skips walk errors with `if let Ok`, meets the same scan specification, so the two copies agree (`ScanSpec.ScanResultsAgree`) |
| Governance.Evaluate | cli/src/governance/engine.rs:26-57 | `evaluate` holds exactly when every present condition holds: the lower-cased extension equals the target, the length is at least the minimum, and the age, when known, is at least the minimum days times 86400 |
| Governance.EmptyRuleMatchesAll | cli/src/governance/engine.rs:26-56 | a rule with no conditions matches every file |
| Governance.UpperCaseTargetNeverMatches | cli/src/governance/engine.rs:28-36 | the target is not lower-cased, so a target with a capital matches nothing |
| Governance.EvaluateMonotone | cli/src/governance/engine.rs:39-54 | a match stays a match for a larger or older file, or one whose age is unknown |
| Governance.ExtensionRuleMatches | cli/src/governance/tests.rs:36-50 | the `tmp` rule matches `test.tmp` |
| Governance.ExtensionRuleRejects | cli/src/governance/tests.rs:52-54 | the `tmp` rule rejects `test.log` |
| Governance.SizeRuleExample | cli/src/governance/tests.rs:70-88 | a 1024-byte minimum rejects 5 bytes and accepts 1024 and 2048 |
| Governance.Execute | cli/src/governance/engine.rs:59-79 | a dry run changes nothing and reports what it would do, for every action. Otherwise Report and Archive only report, and Delete removes exactly the path when it can; a failure is reported, not raised |
| Governance.OutcomeCases | cli/src/governance/engine.rs:59-79 | a dry run, and only a dry run, reports what it would do with the policy's action. Deleted exactly when a Delete can remove the file, DeleteFailed exactly when it cannot. A Violation only for Report, with the policy's name; Archiving only for Archive, with its target |
| HeuristicsExamples.NoPattern | cli/src/analysis/heuristics.rs:8-24 | a text showing none of the fifteen literals matches no pattern |
| Heuristics.AnalyzeFilenameRisk | cli/src/analysis/heuristics.rs:50-63 | the level is above None exactly when the path has a file name and the name or the lower-cased path passes the pattern gate |
| Heuristics.IsMatchIgnoresCase | cli/src/analysis/heuristics.rs:8-24 | the `(?i)` patterns ignore case: a text matches exactly when its lower-cased form does |
| Heuristics.AnalyzeTiers | cli/src/analysis/heuristics.rs:50-96 | no file name gives None. Otherwise, on the lower-cased name and path: Critical exactly on a Critical sign; High exactly on a High sign without a Critical one, once past the gate; Medium exactly on a Medium sign without the others; Low exactly when past the gate with no sign; None exactly when the gate stops it |
| Heuristics.CriticalSignsPassGate | cli/src/analysis/heuristics.rs:61-75 | every Critical sign is a gate pattern, so the gate never stops a Critical file |
| Heuristics.HighSignsPassGate | cli/src/analysis/heuristics.rs:61-84 | every High sign except `credential` is a gate pattern |
| Heuristics.MediumSignsPassGate | cli/src/analysis/heuristics.rs:61-93 | every Medium sign is a gate pattern |
| Heuristics.HighWithoutCredential | cli/src/analysis/heuristics.rs:77-84 | a name with a High sign other than `credential` and no Critical sign is High |
| Heuristics.AsStrInjective | cli/src/analysis/heuristics.rs:39-47 | the five levels have five distinct names |
| HeuristicsExamples.CriticalName | cli/src/analysis/heuristics.rs:65-75 | a plain lower-case name with a Critical sign is Critical |
| HeuristicsExamples.HighGate | cli/src/analysis/heuristics.rs:8-24 | a High sign opens the gate unless it is `credential` without the plural |
| HeuristicsExamples.HighName | cli/src/analysis/heuristics.rs:77-84 | a plain lower-case name with a High sign that passes the gate and has no Critical sign is High |
| HeuristicsExamples.MediumName | cli/src/analysis/heuristics.rs:86-93 | a plain lower-case name with only a Medium sign is Medium |
| HeuristicsExamples.UngatedName | cli/src/analysis/heuristics.rs:61-63 | a plain lower-case name matching no pattern is None |
| HeuristicsExamples.PrivatePem | cli/src/analysis/heuristics.rs:105-108 | `private.pem` is Critical |
| HeuristicsExamples.PasswordsTxt | cli/src/analysis/heuristics.rs:109-112 | `passwords.txt` is Critical |
| HeuristicsExamples.SshKey | cli/src/analysis/heuristics.rs:113-116 | `.ssh/id_rsa` is Critical, through the path |
| HeuristicsExamples.SecretKeyPem | cli/src/analysis/heuristics.rs:117-120 | `my_secret_key.pem` is Critical |
| HeuristicsExamples.CredentialsJson | cli/src/analysis/heuristics.rs:125-128 | `credentials.json` is High |
| HeuristicsExamples.DotEnv | cli/src/analysis/heuristics.rs:129-132 | `.env` is High |
| HeuristicsExamples.DatabaseKdbx | cli/src/analysis/heuristics.rs:133-136 | `database.kdbx` is High |
| HeuristicsExamples.BackupZip | cli/src/analysis/heuristics.rs:141-144 | `backup.zip` is Medium |
| HeuristicsExamples.ConfigYaml | cli/src/analysis/heuristics.rs:145-148 | `config.yaml` is Medium |
| HeuristicsExamples.DocumentPdf | cli/src/analysis/heuristics.rs:153-156 | `document.pdf` is None |
| HeuristicsExamples.MainRs | cli/src/analysis/heuristics.rs:157-160 | `main.rs` is None |
| HeuristicsExamples.SingularCredentialIsUngated | cli/src/analysis/heuristics.rs:61-84 | `credential.txt` is None: the gate has only `credentials`, so the High test on `credential` is never reached |
| HeuristicsExamples.NotesInBackup | cli/src/analysis/heuristics.rs:95 | `backup/notes.txt` passes the gate through its path only and is Low |
| Server.AgentTimestampsMembers | server/src/main.rs:132 | a time is listed for an agent exactly when some stored snapshot of that agent has it |
| Server.History | server/src/main.rs:126-151 | `get_agent_history` gives the agent's snapshot times, as a multiset, in non-increasing order, and nothing when the query fails |
| Server.UnknownAgentHistory | server/src/main.rs:130-149 | an agent with no snapshot has an empty history |
| Server.HistoryAfterAppend | server/src/main.rs:94-118 | an ingest adds its snapshot time to that agent's history and to no other agent's |
| Server.ResubmittedSnapshotListedTwice | server/src/main.rs:99-100 | there is no dedup: a snapshot stored twice is listed twice |
| Server.LatestAtOrBefore | server/src/main.rs:168-191 | a bound picks a stored snapshot of the agent not after the bound whose time is largest among those, and nothing exactly when there is none |
| Server.LatestMonotone | server/src/main.rs:168-191 | a later bound never picks an earlier snapshot |
| Server.ToMapFind | server/src/main.rs:202-205 | `start_ext_map` holds every start extension, with the size and count of its last entry |
| Server.ExtensionDeltas | server/src/main.rs:201-239 | the deltas are exactly those of the end pass (matched or appeared) and of the names left over (disappeared), as a multiset, sorted non-increasing by absolute size delta |
| Server.DeltasOncePerExtension | server/src/main.rs:202-236 | with distinct end names, each extension of the union appears once, with end minus start, an absent side counting as 0 |
| Server.SnapshotStore.Ingest | server/src/main.rs:94-118 | a successful ingest appends exactly the payload and says so; a failed one leaves the store and reports the error |
| Server.SnapshotStore.GetVelocity | server/src/main.rs:162-286 | with either lookup missing or failing, the all-zero report. Otherwise `t_start`/`t_end` are the picked snapshots' times, and duration, growth in bytes and files are end minus start. The rate is 0 unless the duration is positive. The deltas are those of `ExtensionDeltas` |
| Server.OrderedBoundsForward | server/src/main.rs:168-199 | with `start <= end` the measured duration is not negative |
| Server.SelfMeasureIsFlat | server/src/main.rs:196-245 | measuring a snapshot against itself shows zero duration, growth and rate, and only zero deltas |
| Wire.Get | cli/src/main.rs:125 | `Value::get` finds a field exactly of an object that has it |
| Wire.AsStr | cli/src/main.rs:125 | `Value::as_str` succeeds exactly on a string |
| Wire.DecodeNat | server/src/main.rs:37-38 | a `u64` field decodes exactly from a non-negative number |
| Wire.DecodeTriple | server/src/main.rs:40 | a `(String, u64, u64)` decodes only from an array of exactly three elements |
| Wire.DecodeTriples | server/src/main.rs:40 | a vector of triples decodes exactly when every element does, element by element |
| Wire.DecodeSnapshot | server/src/main.rs:32-41 | only an object decodes. A decoded snapshot takes its id and host name from string fields and its timestamp from a number field of those names, and its sizes, count and triples from the fields that decode to them |
| Cli.FromCoreRecord | cli/src/main.rs:75-85 | the conversion keeps path and size and leaves entropy, risk level and semantic tag empty |
| Cli.FromCoreRecords | cli/src/main.rs:109 | the top files are converted one by one, in order |
| Cli.FromCoreStats | cli/src/main.rs:100-112 | every scalar field and the map are copied, and the top files mapped in order with the same length |
| Cli.StatsRoundTrip | cli/src/main.rs:100-112 | the conversion loses nothing of the core statistics |
| Cli.PolicyOf | cli/src/main.rs:123-133 | an entry gives a policy exactly when it is an object with a string `name`; the policy is that name with rule `{log, no size, 90 days}` and action Report |
| Cli.ParsePolicies | cli/src/main.rs:121-134 | at most one policy per entry, each with the log rule and Report |
| Cli.ParsePoliciesAppend | cli/src/main.rs:121-134 | the mapping works entry by entry, in order |
| Cli.UnnamedEntryDropped | cli/src/main.rs:125 | an entry without a string name is dropped and changes nothing else |
| Cli.ParseNameObjects | cli/src/main.rs:121-134 | a list of named objects gives exactly one policy per name, in order |
| Cli.FetchPolicies | cli/src/main.rs:115-145 | a request or parse failure gives no policies; otherwise the mapping of the reply |
| Cli.MapEntries | cli/src/main.rs:153 | `extensions.iter().collect()` lists every entry of the map once |
| Cli.TopExtensions | cli/src/main.rs:153-159 | sort by size then `take(n)`: `min(n, entries)` distinct entries of the map, non-increasing by size, none smaller than an entry left out |
| Cli.TopOfListing | cli/src/main.rs:153-159 | the same properties for any listing of the map, sorted and cut |
| Cli.PairsJson | cli/src/main.rs:155-159 | the upload as written sends one `[ext, size]` pair per selected extension |
| Cli.TriplesJson | server/src/main.rs:39-40 | the corrected upload sends one `[ext, size, count]` triple per selected extension |
| Cli.Totals | server/src/main.rs:39-40 | the triples carry each selected extension's size and count |
| Cli.SnapshotFields | cli/src/main.rs:161-168 | the body has the six fields the server reads, with the statistics' totals |
| Cli.PairsRefused | cli/src/main.rs:155-167 | as written, a body with at least one extension is refused by the server's decoder |
| Cli.UploadBodyAsWritten | cli/src/main.rs:153-168 | the body carries the id, clock, host name and totals in their six fields, and one `[ext, size]` pair per listed extension, in order |
| Cli.UploadBody | cli/src/main.rs:153-168 | the corrected body: the same fields, with one `[ext, size, count]` triple per listed extension, in order |
| Cli.OneExtensionRefused | cli/src/main.rs:155-167 | a scan with one `txt` extension is refused |
| Cli.TriplesDecode | cli/src/main.rs:161-168 | the corrected body decodes to the snapshot with those totals and triples |
| Cli.TriplesRoundTrip | server/src/main.rs:40 | decoding the encoded triples gives the triples back |
| Cli.UploadSnapshot | cli/src/main.rs:148-168 | the corrected upload body decodes to a snapshot of `min(10, entries)` distinct extensions of the map, non-increasing by size, none smaller than an extension left out |
| Cli.ReportExtensions | cli/src/main.rs:315-318 | the human report lists `min(5, entries)` distinct entries of the map, non-increasing by size, none smaller than an entry left out |
| Cli.MatchingPolicies | cli/src/main.rs:227-231 | the policies executed for a file are exactly those whose `evaluate` holds, in list order |
| Cli.GovernancePairsExact | cli/src/main.rs:224-234 | a (path, policy) pair is executed exactly when some walk entry is that regular file and the policy matches it |
| Cli.EntryPairsExact | cli/src/main.rs:225-232 | the same for a single walk entry |
| Cli.NoPoliciesNoPairs | cli/src/main.rs:219 | with no policies nothing is executed |
| Cli.Replay | cli/src/main.rs:224-234 | replaying the executions gives one outcome per pair |
| Cli.DryRunChangesNothing | cli/src/main.rs:229 | without `--enforce` the filesystem is unchanged and every outcome is a would-execute message |
| Cli.EnforcedRemovesTargets | cli/src/main.rs:229 | with `--enforce` exactly the unprotected Delete targets are removed |
| Cli.ExecuteMatching | cli/src/main.rs:227-231 | the inner loop executes the matching policies in order |
| Cli.GovernEntry | cli/src/main.rs:225-233 | one walk entry: its policies if it is a regular file, nothing otherwise |
| Cli.GovernancePass | cli/src/main.rs:219-235 | the governance pass leaves the filesystem and outcomes of replaying every matching (file, policy) pair with `dry_run = !enforce` |
| Cli.AnalyzedLabels | cli/src/main.rs:262-265 | analysis keeps path and size, records the entropy, and labels the record with the name of its risk level exactly when that level is not None |
| Cli.AnalyzedIdempotent | cli/src/main.rs:253-265 | analysing twice with the same entropy is analysing once |
| Cli.LabelTopFiles | cli/src/main.rs:253-278 | the analysis loop updates each top file in place with its entropy and risk label and nothing else |
| Cli.AnalyzeTopFiles | cli/src/main.rs:253-265 | the loop with `analyze_filename_risk` as the classifier |
| Tree.MockEntropy | app/src-tauri/src/lib.rs:24-37 | the entropy is one of the table's four values, and 4.0 without an extension |
| Tree.RiskScore | app/src-tauri/src/lib.rs:59 | `(entropy * 10.0) as u8`: at most 255, 0 below 1, and otherwise the integer part |
| Tree.TableRiskScores | app/src-tauri/src/lib.rs:24-60 | a table entropy gives risk 78, 65, 32 or 40, exactly ten times the entropy |
| Tree.ExtensionCaseMatters | app/src-tauri/src/lib.rs:27-29 | the lookup is case-sensitive: `zip` gives 7.8 and `ZIP` 4.0 |
| Tree.HiddenNameDefault | app/src-tauri/src/lib.rs:27-35 | `.zip` as a whole name has no extension and gives 4.0 |
| Tree.ScanChildren | app/src-tauri/src/lib.rs:67-76 | at most one child per entry read |
| Tree.ChildrenFromEntries | app/src-tauri/src/lib.rs:67-76 | the children are exactly the nodes produced by entries one level deeper |
| Tree.ChildrenTooDeep | app/src-tauri/src/lib.rs:40-42 | entries deeper than `max_depth` produce no child |
| Tree.ScanTreeNone | app/src-tauri/src/lib.rs:39-94 | no node exactly when the entry failed, the depth is past `max_depth`, the metadata fails, or it is neither file nor directory |
| Tree.ScanNodeKind | app/src-tauri/src/lib.rs:44-60 | a produced node belongs to an entry with metadata, is named after its path, and is a leaf exactly when the entry is a file |
| Tree.ScanFile | app/src-tauri/src/lib.rs:52-60 | a file gives a leaf named after the path, sized by its length, with the mock entropy |
| Tree.DirectoryAtLimit | app/src-tauri/src/lib.rs:39-91 | a directory at exactly `max_depth` gives an empty node of size 0 |
| Tree.UnreadableDirectory | app/src-tauri/src/lib.rs:67 | a directory whose `read_dir` fails gives an empty node of size 0 |
| Tree.SizeIsLeafBytes | app/src-tauri/src/lib.rs:61-91 | in a consistent tree a node's size is the sum of its leaves' sizes |
| Tree.ScanShape | app/src-tauri/src/lib.rs:39-94 | a produced tree is consistent (each directory sums its children) and no deeper than `max_depth - depth` |
| Tree.ScanSizeIsFileBytes | app/src-tauri/src/lib.rs:52-91 | a produced node's size is the total length of the files it shows |
| Tree.ScanDirectoryRecursive | app/src-tauri/src/lib.rs:39-94 | the recursive walk computes the tree of the specification |
| Tree.ScanFolder | app/src-tauri/src/lib.rs:61-91 | a directory gets the node of the specification: its entries' nodes, their total size and mean entropy when it is readable, and no children when it is not |
| Tree.ScanEntries | app/src-tauri/src/lib.rs:67-76 | the loop over the entries adds up sizes and entropies, counts the nodes and pushes each entry's node, in read order |
| Tree.GetScanTreeOutcome | app/src-tauri/src/lib.rs:99-114 | the command fails on a missing or unreadable path and on one that is neither file nor directory. Otherwise it answers with the scan from depth 0 and `max_depth` 3: consistent, at most three levels, named after the root |
| Tree.GetScanTree | app/src-tauri/src/lib.rs:99-114 | a successful answer is the scan from depth 0 limited to 3 levels. An unreadable path fails with "Cannot access path: ", and an existing path that gives no node fails with "Failed to scan path: …. Try a subdirectory instead." |

## Left out

- The file walk, `fs::metadata`, `fs::read_dir`, `remove_file`, HTTP (reqwest, axum), SurrealDB, tauri's `run`, clap parsing, `tracing` and every `println!`/`format_size` text are not modelled. They are I/O. Their results are inputs instead: a walk sequence, a disk tree, a filesystem class, failure flags, a JSON reply.
- The walk's order and jwalk's parallel traversal are not modelled. Any order is allowed: the walk is a given sequence.
- The clock, the hostname and the agent id (`Instant`, `chrono::Utc::now`, environment variables) are not computed. The scan duration, snapshot time, hostname and agent id are parameters.
- `u64`/`i64` overflow is not modelled: integers are unbounded. This covers the `+=` on the counters, the `as i64` casts in `get_velocity` and `i64::abs` on the minimum.
- Floating point is not modelled. `bytes_per_second`, the tree's entropies and their average are exact reals. `Tree.RiskScore` follows the saturating `as u8` cast on those reals.
- Lower-casing covers ASCII capitals only. Unicode case mapping and `to_string_lossy` on non-UTF-8 names are left out.
- Paths are `/`-separated strings. Windows prefixes and `\` separators are left out.
- HashMap iteration order (the map listing in the CLI, the leftover loop in `get_velocity`) is an arbitrary choice. The contracts hold for every order.
- `Server.LatestAtOrBefore`: among snapshots with the same greatest time, the earliest stored is taken. The database's choice among equal times is not specified, and the contract does not depend on it.
- `TopK.FileHeap.Pop`: which of several equally small records is evicted is left open, as `BinaryHeap` leaves it. The heap is a sequence, not a binary tree.
- `Sorting.SortDescBy`: `sort_by` is a function over sequences, not an in-place sort on a vector.
- `Server.ExtensionDeltas`: the delta list is specified as a multiset and an order. Ties in absolute size may come out in any order.
- `Server.DeltasOncePerExtension` requires distinct extension names in the end snapshot. With repeated names the code matches only the first and treats the rest as appeared; the exact delta list is `Server.DeltaBag`.
- `get_policies` is not modelled: it returns a constant.
- The semantic engine (`cli/src/analysis/semantic.rs`, an ML classifier behind a feature flag) is not modelled, and neither is the file entropy (`cli/src/analysis/entropy.rs`, an f32 Shannon entropy read from disk). So semantic tags and the 6.0/0.5 thresholds of the analysis loop are left out. The entropy of each path is an input of `Cli.LabelTopFiles`.
- The sequencing of `main` (flag handling, printing the report, whether to upload) is not modelled. Its pieces with logic are: `Cli.FetchPolicies`, `Cli.GovernancePass`, `Cli.AnalyzeTopFiles`, `Cli.ReportExtensions` and `Cli.UploadSnapshot`.
- `Tree.GetScanTreeOutcome`: the OS error text after "Cannot access path: " is not modelled. `Path::exists` and the metadata read that follows are separate inputs.
- `Governance.Execute`: Archive only prints its target, as the code does. No move is modelled.

## Findings

| source | as written | input that shows it | evidently intended | confidence | as-written member | corrected member |
|---|---|---|---|---|---|---|
| cli/src/main.rs:155-167 | `upload_snapshot` sends `top_extensions` as `(ext, size)` pairs, but the server's `AgentSnapshot` (server/src/main.rs:40) expects `(ext, size, count)` triples, so the `Json` extractor at server/src/main.rs:96 refuses the body | any scan with at least one extension, e.g. one `txt` file of 12 bytes | send `(ext, size, count)` triples, as the server's comment at server/src/main.rs:39 describes | not executed | Cli.PairsRefused | Cli.TriplesDecode |
