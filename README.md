# Memory store, tool dispatcher and event log of memchat / funes

This project models the part of memchat that gives a language model read
access to a local directory of "memory files".

- **The sandboxed memory store** (`memchat/tools.py`). It lists the visible
  regular files below the memory root as sorted relative paths. It reads one
  file by a path the model supplies. Every location that path resolves to must
  stay inside the root.
- **The tool layer.** This covers the two function-calling schemas offered to
  the model (`MEMORY_TOOLS`). It also covers `execute_tool_call`, which runs a
  named tool and renders the outcome as text.
- **The glue around the agent run** (`memchat/orchestrator.py`). This covers
  the `ToolCallEvent` record and its dictionary form, and the events built from
  the runner's items. It covers how a failing baseline or augmented run becomes
  text, the memory root a run uses, and the fixed model list.
- **The second copy of the store** (`funes/agent.py`). It lists with a
  recursive glob instead of `os.walk`. A lemma shows that both listings agree
  on every filesystem of regular files and directories.

The filesystem is a value: a finite map from resolved paths (sequences of entry
names) to `File(bytes)` or `Dir`. It is constrained to be a tree: "/" is a
directory, and every entry's parent is a directory.

A path string from the model is parsed the way `PurePosixPath` parses it:
- it is split on '/', and empty and "." pieces are dropped, while ".." pieces
  are kept;
- it is absolute when it starts with '/'.

`resolve()` then folds each ".." against the root, and ".." at "/" stays at
"/". The sandbox test is the prefix relation on these resolved paths. The lookups
after it go through `root / path` piece by piece, as the operating system does:
each piece, ".." included, is looked up in the directory reached so far.

The UTF-8 codec is a parameter of type `seq<byte> -> Decoded`. The memory root
is an explicit parameter, not the module-global `MEM_DIR`. Listing creates a
missing root, so it returns the filesystem as it is afterwards.

The two listings are written as imperative loops over the directory entries, as
the source writes them. Each is proved equal to a specification function
(`WalkListing`, `GlobListing`), and the properties are proved about those
functions. Python's `sorted` is modelled as an insertion sort on code-point order. It is
proved to give the one strictly increasing sequence of the collected paths,
whatever order the walk visited them in.

In these places the code does something its docstrings do not say; the model follows the code:

- `read_text` opens the file in text mode, so "\r\n" and a lone "\r" come back
  as "\n". The content is therefore returned unchanged only when it has no
  '\r' (`MemoryStore.ReadReturnsContent`). It is not returned verbatim in
  every case.
- `execute_tool_call` does not catch everything. It raises in two cases:
  - `mkdir` is called without `parents=True`, so listing under a missing root
    whose parent is missing raises `FileNotFoundError`.
  - A truthy `path` argument that is not a string makes `MEM_DIR / path` raise
    `TypeError`.

  `Tools.RaisesOnlyWhen` proves that these are the only two cases.
- The sandbox test folds ".." through `resolve()`, but `exists()`, `is_file()`
  and `read_text()` are called on `root / path` as joined, with its ".."
  pieces kept. The operating system walks each ".." itself, so "missing/../f"
  or "notes.txt/../f" is not found even when "f" is inside the root
  (`MemoryStore.ParentAfterMissingPiece`).
- The missing root is created only when its parent directory exists.
- Only the file's own name is checked for a leading '.'. Files inside hidden
  directories are listed.

## Model

| member | source | states |
|---|---|---|
| Paths.RelativeStringLocates | memchat/tools.py:24-26 | a listed relative path, joined to the root again and resolved, names exactly the file it was made from |
| Paths.RelativeStringInjective | memchat/tools.py:24-26 | distinct files below the root get distinct relative path strings |
| Paths.ResolveStaysBelow | memchat/tools.py:44-48 | a relative path without ".." never resolves outside its base |
| Paths.ParentEscapes | memchat/tools.py:44-48 | ".." followed by a name other than the root's own last name resolves outside the root |
| Paths.LocateAbsoluteNames | memchat/tools.py:44-48 | an absolute path string ignores the root and resolves to exactly its names |
| Paths.LocateParentStep | memchat/tools.py:44-48 | "name/../f" resolves to f directly below the root |
| FileSystems.MakeDir | memchat/tools.py:15-16 | `mkdir(exist_ok=True)` creates exactly the missing directory when its parent is a directory, changes no other entry, and fails otherwise |
| MemoryStore.ReadMemoryFile | memchat/tools.py:31-67 | content is returned only when the resolved location is at or below the root, `root / path` exists when the operating system walks it, and it is a regular file; a location outside the root is refused whatever else holds |
| MemoryStore.TranslateNewlines | memchat/tools.py:58-59 | text-mode reading leaves no '\r' in the text, leaves text without '\r' unchanged and never lengthens it |
| MemoryStore.UniversalLines | memchat/tools.py:58-59 | the lines of a text under universal newlines: none of them holds '\n' or '\r' |
| MemoryStore.TranslateNewlinesSplitsLines | memchat/tools.py:58-59 | the text-mode result, split at '\n', is exactly the text's lines as "\r\n", a lone "\r" and "\n" end them |
| MemoryStore.ReachableNames | memchat/tools.py:52 | without "..", the operating system gets through to every location that is present, since all its ancestors are directories |
| MemoryStore.ExistsWithoutParent | memchat/tools.py:44-52 | for a path without "..", `exists()` holds iff the resolved location is present |
| MemoryStore.ParentAfterMissingPiece | memchat/tools.py:44-53 | "name/../f" resolves to f inside the root, yet is not found whenever name is not an existing directory |
| MemoryStore.DecodeErrorText | memchat/tools.py:60-67 | the decode error's message ends with ": " and the reason it was raised with |
| MemoryStore.ReadErrorMessage | memchat/tools.py:47-67 | each refusal's message ends with the offending path, and a decode failure's message ends with "File {path} is not valid UTF-8: {reason}" |
| MemoryStore.SandboxCheckComesFirst | memchat/tools.py:44-53 | an escaping path gets the same refusal on any two filesystems: the guard precedes every lookup |
| MemoryStore.ParentPathIsRefused | memchat/tools.py:44-50 | "../name" is refused as outside the root unless it names the root itself |
| MemoryStore.AbsolutePathIgnoresRoot | memchat/tools.py:44 | joining an absolute path string to the root discards the root |
| MemoryStore.AbsolutePathIsRefused | memchat/tools.py:44-50 | an absolute path whose first name differs from the root's is refused as outside the root |
| MemoryStore.ReadFailuresInsideRoot | memchat/tools.py:52-67 | inside the root: not found iff `root / path` does not exist as the operating system walks it, not a file iff it exists and is a directory, bad encoding iff it is a file the codec rejects |
| MemoryStore.ReadReturnsContent | funes/agent.py:53-68 | an existing file that decodes is returned as its decoded text after newline translation, unchanged when it holds no '\r'; funes' guard chain is the one of memchat/tools.py:44-59 |
| MemoryStore.CollectDirectory | memchat/tools.py:20-26 | one `os.walk` step only appends to the list, and adds exactly the visible regular files of one directory, each once, as paths relative to the root |
| MemoryStore.ListMemoryFiles | memchat/tools.py:9-28 | the walk, in any visiting order, returns exactly the specification listing `WalkListing` |
| MemoryStore.MissingRootIsCreated | memchat/tools.py:15-17 | a missing root is created and nothing is listed iff its parent is a directory; otherwise the mkdir error escapes |
| MemoryStore.WalkedFilesAreVisibleFiles | memchat/tools.py:20-23 | the walk reports a location strictly below the root iff it is a regular file whose own name does not start with '.' |
| MemoryStore.ListingNamesVisibleFile | memchat/tools.py:19-28 | with the root present, a location's relative path is listed iff it is a visible regular file, and the filesystem is unchanged |
| MemoryStore.ListedEntryIsVisibleFile | memchat/tools.py:24-26 | every listed path resolves to a visible regular file strictly below the root |
| MemoryStore.ListedEntryHasNoParent | memchat/tools.py:24-26 | every listed path is relative and holds no ".." piece |
| MemoryStore.ListingIsVisibleFiles | memchat/tools.py:19-28 | with the root present, the listing is strictly increasing (sorted, no repeats) and names exactly the visible regular files below the root |
| MemoryStore.EmptyListingIffNoVisibleFile | memchat/tools.py:19-28 | with the root present, the listing is empty iff no visible regular file lies below the root |
| MemoryStore.ListedPathsAreReadable | memchat/tools.py:24-59 | every listed path, handed back to `read_memory_file`, passes the sandbox, existence and file checks and yields the file's decoded content |
| Ordering.Sort | memchat/tools.py:28 | `sorted` returns a sorted permutation of its input |
| Ordering.SortedSeq | memchat/tools.py:28 | the strictly increasing sequence holding exactly the elements of a finite set |
| Ordering.SortDistinct | memchat/tools.py:28 | sorting a list without repeats gives the same result whatever order it was collected in |
| FunesStore.ListMemoryFiles | funes/agent.py:19-36 | the glob loop, in any order of the entries, returns exactly the specification listing `GlobListing` |
| FunesStore.WalkedFilesAreGlobbedFiles | funes/agent.py:29-34 | on a tree of regular files and directories, the glob keeps exactly the files `os.walk` keeps: both check only the leaf name |
| FunesStore.WalkAndGlobAgree | funes/agent.py:25-36 | funes' listing equals memchat's on every filesystem of regular files and directories, including the creation of a missing root |
| FunesStore.GlobListingIsVisibleFiles | funes/agent.py:29-36 | with the root present, funes' listing is strictly increasing and names exactly the visible regular files below the root |
| Tools.SchemasNameTheTools | memchat/tools.py:71-97 | two function schemas, named list_memory_files and read_memory_file in that order; the read tool requires exactly one parameter, `path`, of type string |
| Tools.OfferedTools | memchat/tools.py:71-97 | a tool name is offered by a schema iff it is one of the two names the dispatcher runs |
| Tools.ListingRoundTrip | memchat/tools.py:110-114 | the list reply reads back into the listing it shows (paths without line breaks), and it is "No memory files found." iff the listing is empty |
| Tools.ReadReplyShape | memchat/tools.py:121-125 | the read reply starts with "Contents of {path}:\n\n" iff the file was read, followed by the content unchanged |
| Tools.ExecuteToolCall | memchat/tools.py:100-128 | only the list tool can change the filesystem |
| Tools.KnownToolsAnswerOtherwise | memchat/tools.py:110-125 | no reply of the two tools reads as the unknown-tool error |
| Tools.UnknownToolIffNotOffered | memchat/tools.py:127-128 | the reply is "Error: Unknown tool '{name}'" iff no schema offers the name |
| Tools.RaisesOnlyWhen | memchat/tools.py:110-124 | the dispatcher raises iff listing meets a missing root whose parent is not a directory, or the read tool gets a truthy non-string `path` |
| Tools.MissingPathIsReported | memchat/tools.py:117-119 | a missing or falsy `path` gives "Error: 'path' parameter is required" whatever the filesystem |
| Tools.StringPathIsAccepted | memchat/tools.py:116-125 | a non-empty string `path` is never refused as missing and never raises |
| Tools.ReadDispatch | memchat/tools.py:121-125 | a read replies with the content header iff the file was read, the content after it unchanged; otherwise "Error reading {path}: " and the exception's message |
| Tools.EscapingPathIsReported | memchat/tools.py:121-125 | an escaping path gets "Error reading {path}: " followed by the sandbox message, whatever the filesystem |
| Tools.ListDispatch | memchat/tools.py:110-114 | with the root present, the list tool shows the sorted listing and the filesystem is unchanged; the sentinel appears iff no visible file exists |
| Orchestrator.ToDict | memchat/orchestrator.py:23-29 | the dictionary has exactly the keys timestamp, tool_name, arguments and result |
| Orchestrator.EventDictRoundTrip | memchat/orchestrator.py:15-29 | the dictionary keeps every field the event was constructed with: reading it back gives the same event |
| Orchestrator.ToDictInjective | memchat/orchestrator.py:23-29 | distinct events have distinct dictionaries |
| Orchestrator.ToolCallItems | memchat/orchestrator.py:95 | the filter keeps only tool-call items taken from the runner's list, and never more than it holds |
| Orchestrator.ToolCallItemsKeepOrder | memchat/orchestrator.py:95 | every tool-call item is kept, at the position given by the number of tool-call items before it |
| Orchestrator.ToolRankIncreasing | memchat/orchestrator.py:95 | a tool-call item later in the runner's list is later in the filtered list |
| Orchestrator.EventOf | memchat/orchestrator.py:97-103 | an event is built iff its three attributes read, and it holds the timestamp and those attributes; otherwise it fails with the first attribute's error |
| Orchestrator.Events | memchat/orchestrator.py:97-105 | the comprehension succeeds iff every item's attributes read, and then gives one event per item, in order; otherwise it fails with the first item's first error |
| Orchestrator.FirstItemError | memchat/orchestrator.py:95-105 | no read of the items fails iff no item has a failing attribute |
| Orchestrator.FirstErrorAmongToolCalls | memchat/orchestrator.py:95 | filtering out the other items does not change which read fails first |
| Orchestrator.AugmentedEventsFollowItems | memchat/orchestrator.py:92-107 | a readable run has no failing read, and returns the runner's final output and one event per tool-call item, in item order, holding its name, arguments and result |
| Orchestrator.AugmentedFailureHasNoEvents | memchat/orchestrator.py:92-111 | when any attribute fails to read, the output is "Error in augmented chat: " followed by the message of the first read to fail (`final_output`, `new_items`, then the items in order) and no event is returned |
| Orchestrator.NoToolCallsNoEvents | memchat/orchestrator.py:92-107 | a run without tool calls returns its final output unchanged and no events |
| Orchestrator.BaselineFailureIsText | memchat/orchestrator.py:64-74 | a failing baseline call becomes "Error in baseline chat: " followed by the exception's message; a successful one returns the reply |
| Orchestrator.ConfiguredRootChoice | memchat/orchestrator.py:47-53 | a non-empty memory_dir becomes the root (taken from the working directory when relative); an absent or empty one keeps the previous root |
| Orchestrator.ChatRunIndependence | memchat/orchestrator.py:32-61 | `chat_run` returns (baseline, augmented, events) and leaves the configured root; the baseline's exceptions are caught where they arise, so a failing baseline call does not change the augmented text or events, and the baseline text does not depend on the runner's result |
| Orchestrator.AvailableModels | memchat/orchestrator.py:114-120 | the model list has six entries |
| Orchestrator.AvailableModelsDistinct | memchat/orchestrator.py:114-120 | the six models are distinct, and `chat_run`'s default model is among them |

## Left out

- Special files (FIFOs, sockets, device files). The filesystem holds only regular files and directories. `os.walk` puts every non-directory in `filenames`, so memchat lists a special file, and its own `read_memory_file` then answers "Path is not a file". funes keeps only `is_file()` entries and drops it. `FunesStore.WalkAndGlobAgree`, `FunesStore.WalkedFilesAreGlobbedFiles`, `MemoryStore.WalkedFilesAreVisibleFiles` and `MemoryStore.ListedPathsAreReadable` therefore hold only for trees without special files.
- Symbolic links. `resolve()` follows them, but the model's filesystem has none. Resolution is purely lexical.
- A path string with a NUL character. `resolve()` raises `ValueError` for it, which the source reports as outside the directory. The model does not distinguish it.
- Operating-system errors other than a missing or non-directory parent: permissions, I/O failures, and directories `os.walk` cannot read (it skips them silently).
- The decoding itself. The codec is a parameter, and CPython's `str()` of a `UnicodeDecodeError` is rendered for the single-byte and byte-range cases.
- The conversation loop. The agent, the runner's turn loop and every OpenAI call are library code. The runner's answer is an input value (`RunResult`), and so is the baseline backend's reply.
- `datetime.now().isoformat()`. Each event's timestamp comes from a `clock` parameter indexed by the event's position.
- A runner `final_output` that is not a string is not modelled.
- `ToolCallEvent` is a plain class in the source. Its fields are set only by its constructor, so it is a datatype here.
- `list_memory_files` with a root that is a regular file. Both listings give no files; the model agrees, but no lemma states it separately.
- The front-ends (`memchat/cli.py`, `memchat/tui.py`, `app.py`, `run_ui.py`), `save_uploaded_file`, and funes' `base_response` and `main`. They are user interface, process launch and network code outside the store and dispatcher.
- funes' `read_memory_file`. It is the same guard chain as memchat's, so it is modelled once as `MemoryStore.ReadMemoryFile`.
- Tools.ListingRoundTrip: holds only for paths without a line break. File names may contain '\n', and then the list reply is ambiguous.
- Orchestrator.ConfiguredRootChoice: folds the ".." pieces of `memory_dir` into the root. The source stores `Path(memory_dir)` unresolved, so `MEM_DIR.exists()`, `mkdir`, `os.walk` and `(MEM_DIR / path).exists()` walk those pieces through the operating system. With "x/../memory" and `x` missing, the source finds no root and its `mkdir` raises; the model uses the root "memory" itself.
- Orchestrator.ChatRunIndependence: `ChatRun` is total and does not model the raises that escape `chat_run`. `OpenAI()` and the `Agent`, `Runner()` and `runner.run(...)` calls sit outside any `try`, so a raise from one of them ends `chat_run`, and the baseline text already computed is lost.
