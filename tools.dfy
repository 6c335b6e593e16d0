/**
 * The tool layer of memchat/tools.py: the two function-calling schemas
 * offered to the model, and `execute_tool_call`, which runs a named tool on
 * a decoded JSON argument object and renders the outcome as text.
 */
module Tools {
  import opened Paths
  import opened FileSystems
  import opened MemoryStore

  /** A decoded JSON value, as the model's tool-call arguments arrive. */
  datatype Json =
    | JNull
    | JBool(b: bool)
    | JNumber(n: real)
    | JString(s: string)
    | JArray(items: seq<Json>)
    | JObject(fields: map<string, Json>)

  /** Python truthiness of the value a JSON document decodes to. */
  predicate Truthy(v: Json) {
    match v
    case JNull => false
    case JBool(b) => b
    case JNumber(n) => n != 0.0
    case JString(s) => s != ""
    case JArray(items) => items != []
    case JObject(fields) => fields != map[]
  }

  // ---------------------------------------------------------------- schemas

  const ListToolName := "list_memory_files"
  const ReadToolName := "read_memory_file"

  /** `MEMORY_TOOLS`: the schema of each tool, in the order offered to the model. */
  const MemoryTools: seq<Json> := [
    JObject(map[
      "type" := JString("function"),
      "function" := JObject(map[
        "name" := JString(ListToolName),
        "description" := JString("List all available memory files that can be read"),
        "parameters" := JObject(map[
          "type" := JString("object"),
          "properties" := JObject(map[]),
          "required" := JArray([])])])]),
    JObject(map[
      "type" := JString("function"),
      "function" := JObject(map[
        "name" := JString(ReadToolName),
        "description" := JString("Read the contents of a specific memory file"),
        "parameters" := JObject(map[
          "type" := JString("object"),
          "properties" := JObject(map[
            "path" := JObject(map[
              "type" := JString("string"),
              "description" := JString("Relative path to the memory file to read")])]),
          "required" := JArray([JString("path")])])])])
  ]

  /** `v[key]` when `v` is an object holding `key`. */
  function Field(v: Json, key: string): (r: Option<Json>)
    ensures r.Some? <==> v.JObject? && key in v.fields
    ensures r.Some? ==> r.value == v.fields[key]
  {
    if v.JObject? && key in v.fields then Some(v.fields[key]) else None
  }

  datatype Option<T> = None | Some(value: T)

  /** `tool["function"]["name"]`, when it is a string. */
  function ToolName(tool: Json): Option<string>
  {
    match Field(tool, "function")
    case None => None
    case Some(f) =>
      match Field(f, "name")
      case Some(JString(n)) => Some(n)
      case _ => None
  }

  /** `tool["function"]["parameters"]["required"]`, the names of its string items. */
  function RequiredParameters(tool: Json): seq<string>
  {
    match Field(tool, "function")
    case None => []
    case Some(f) =>
      match Field(f, "parameters")
      case None => []
      case Some(p) =>
        match Field(p, "required")
        case Some(JArray(items)) => StringItems(items)
        case _ => []
  }

  function StringItems(items: seq<Json>): (r: seq<string>)
    ensures |r| <= |items|
  {
    if items == [] then []
    else if items[0].JString? then [items[0].s] + StringItems(items[1..])
    else StringItems(items[1..])
  }

  /** The type a schema declares for one parameter, when it declares one. */
  function ParameterType(tool: Json, name: string): Option<string>
  {
    match Field(tool, "function")
    case None => None
    case Some(f) =>
      match Field(f, "parameters")
      case None => None
      case Some(p) =>
        match Field(p, "properties")
        case None => None
        case Some(props) =>
          match Field(props, name)
          case None => None
          case Some(decl) =>
            match Field(decl, "type")
            case Some(JString(t)) => Some(t)
            case _ => None
  }

  // ---------------------------------------------------------------- dispatch

  const NoFilesText := "No memory files found."
  const PathRequiredText := "Error: 'path' parameter is required"
  const UnknownToolPrefix := "Error: Unknown tool '"

  /** Each listed path as a bullet line. */
  function Bulleted(files: seq<string>): (lines: seq<string>)
    ensures |lines| == |files|
    ensures forall i :: 0 <= i < |lines| ==> lines[i] == "- " + files[i]
  {
    if files == [] then [] else ["- " + files[0]] + Bulleted(files[1..])
  }

  /** The text the list tool answers with: a sentinel when nothing is listed, else one bullet line per path. */
  function FormatListing(files: seq<string>): string
  {
    if files == [] then NoFilesText else JoinWith(Bulleted(files), '\n')
  }

  /** Reading a listing text back into its paths: the partner of FormatListing. */
  function ParseListing(text: string): seq<string>
  {
    if text == NoFilesText then [] else Unbulleted(Split(text, '\n'))
  }

  function Unbulleted(lines: seq<string>): (files: seq<string>)
    ensures |files| == |lines|
  {
    if lines == [] then []
    else
      var line := lines[0];
      [if "- " <= line then line[2..] else line] + Unbulleted(lines[1..])
  }

  lemma {:induction false} UnbulletedBulleted(files: seq<string>)
    ensures Unbulleted(Bulleted(files)) == files
  {
    if files != [] {
      UnbulletedBulleted(files[1..]);
      assert ("- " + files[0])[2..] == files[0];
      assert [files[0]] + files[1..] == files;
    }
  }

  lemma JoinStartsWithFirst(pieces: seq<string>, sep: char)
    requires |pieces| >= 1
    ensures pieces[0] <= JoinWith(pieces, sep)
  {
  }

  /**
   * The list tool's text can be read back into the listing it shows, as
   * long as no path contains a line break; and it is the sentinel exactly
   * when nothing is listed.
   */
  lemma ListingRoundTrip(files: seq<string>)
    requires forall i :: 0 <= i < |files| ==> '\n' !in files[i]
    ensures ParseListing(FormatListing(files)) == files
    ensures FormatListing(files) == NoFilesText <==> files == []
  {
    if files != [] {
      var lines := Bulleted(files);
      JoinStartsWithFirst(lines, '\n');
      assert FormatListing(files)[0] == '-';
      forall i | 0 <= i < |lines| ensures '\n' !in lines[i] {
        assert lines[i] == "- " + files[i];
      }
      SplitJoin(lines, '\n');
      UnbulletedBulleted(files);
    }
  }

  /** What escapes `execute_tool_call` uncaught. */
  datatype Exception =
    | MkdirError(error: OsError)   // creating a missing root failed
    | PathTypeError(path: Json)    // a truthy `path` that is not a string cannot be joined to the root

  datatype Outcome = Returned(text: string, after: FileSystem) | Raised(exception: Exception)

  /** The list tool: the listing rendered as text, or the mkdir failure escaping. */
  function ListTool(fs: FileSystem, root: Path): Outcome
  {
    match WalkListing(fs, root)
    case ListRaised(e) => Raised(MkdirError(e))
    case Listed(files, after) => Returned(FormatListing(files), after)
  }

  function ContentsHeader(path: string): string {
    "Contents of " + path + ":\n\n"
  }

  function ErrorHeader(path: string): string {
    "Error reading " + path + ": "
  }

  /** The read tool's text for what reading `path` gave: the content under a header, or the error's message. */
  function ReadReply(path: string, r: ReadResult): (text: string)
  {
    match r
    case Read(content) => ContentsHeader(path) + content
    case Failed(e) => ErrorHeader(path) + ReadErrorMessage(path, e)
  }

  /** The read tool: `path` must be present and truthy, and a string to be joined to the root. */
  function ReadTool(arguments: map<string, Json>, fs: FileSystem, root: Path, utf8: Codec): Outcome
  {
    if "path" !in arguments || !Truthy(arguments["path"]) then Returned(PathRequiredText, fs)
    else if !arguments["path"].JString? then Raised(PathTypeError(arguments["path"]))
    else
      var path := arguments["path"].s;
      Returned(ReadReply(path, ReadMemoryFile(fs, root, path, utf8)), fs)
  }

  function UnknownToolReply(toolName: string): string {
    UnknownToolPrefix + toolName + "'"
  }

  /**
   * `execute_tool_call(tool_name, arguments)` against the filesystem `fs`
   * with memory root `root`; `after` is the filesystem once the call is done.
   */
  function ExecuteToolCall(toolName: string, arguments: map<string, Json>,
                           fs: FileSystem, root: Path, utf8: Codec): (out: Outcome)
    ensures out.Returned? && toolName != ListToolName ==> out.after == fs
  {
    if toolName == ListToolName then ListTool(fs, root)
    else if toolName == ReadToolName then ReadTool(arguments, fs, root, utf8)
    else Returned(UnknownToolReply(toolName), fs)
  }

  // ---------------------------------------------------------------- properties

  /** Both schemas are function tools, named after the two tools the dispatcher runs, in that order. */
  lemma SchemasNameTheTools()
    ensures |MemoryTools| == 2
    ensures forall i :: 0 <= i < |MemoryTools| ==> Field(MemoryTools[i], "type") == Some(JString("function"))
    ensures ToolName(MemoryTools[0]) == Some(ListToolName)
    ensures ToolName(MemoryTools[1]) == Some(ReadToolName)
    ensures RequiredParameters(MemoryTools[0]) == []
    ensures RequiredParameters(MemoryTools[1]) == ["path"]
    ensures ParameterType(MemoryTools[1], "path") == Some("string")
  {
    assert MemoryTools[1].fields["function"].fields["parameters"].fields["required"].items == [JString("path")];
  }

  /** The characters that tell the fixed replies apart. */
  lemma FixedReplyHeads()
    ensures |PathRequiredText| > 7 && PathRequiredText[5] == ':' && PathRequiredText[7] == '\''
    ensures |UnknownToolPrefix| > 7 && UnknownToolPrefix[0] == 'E' && UnknownToolPrefix[5] == ':' && UnknownToolPrefix[7] == 'U'
    ensures ReadToolName != ListToolName
    ensures NoFilesText[0] == 'N'
  {
  }

  /** The list tool's text starts with the sentinel's 'N' or a bullet's '-'. */
  lemma ListTextStart(files: seq<string>)
    ensures |FormatListing(files)| > 0
    ensures FormatListing(files)[0] == (if files == [] then 'N' else '-')
  {
    if files != [] {
      JoinStartsWithFirst(Bulleted(files), '\n');
    }
  }

  /** The read tool's text carries the content header exactly when the file was read, and the content follows it unchanged. */
  lemma ReadReplyShape(path: string, r: ReadResult)
    ensures |ReadReply(path, r)| > 7 && ReadReply(path, r)[5] != ':'
    ensures ContentsHeader(path) <= ReadReply(path, r) <==> r.Read?
    ensures r.Read? ==> ReadReply(path, r)[|ContentsHeader(path)|..] == r.text
  {
    if r.Read? {
      assert ReadReply(path, r) == ContentsHeader(path) + r.text;
      assert ReadReply(path, r)[5] == 'n';
    } else {
      assert ReadReply(path, r)[0] == 'E' && ReadReply(path, r)[5] == ' ';
      assert ContentsHeader(path)[0] == 'C';
    }
  }

  /** The tool names the schemas offer to the model. */
  predicate Offered(toolName: string) {
    exists i :: 0 <= i < |MemoryTools| && ToolName(MemoryTools[i]) == Some(toolName)
  }

  lemma OfferedTools(toolName: string)
    ensures Offered(toolName) <==> toolName == ListToolName || toolName == ReadToolName
  {
    SchemasNameTheTools();
    if toolName == ListToolName {
      assert ToolName(MemoryTools[0]) == Some(toolName);
    } else if toolName == ReadToolName {
      assert ToolName(MemoryTools[1]) == Some(toolName);
    }
  }

  predicate IsUnknownToolError(out: Outcome) {
    out.Returned? && UnknownToolPrefix <= out.text
  }

  /** No text the two tools answer with reads as the unknown-tool error. */
  lemma KnownToolsAnswerOtherwise(toolName: string, arguments: map<string, Json>, fs: FileSystem, root: Path, utf8: Codec)
    requires toolName == ListToolName || toolName == ReadToolName
    ensures !IsUnknownToolError(ExecuteToolCall(toolName, arguments, fs, root, utf8))
  {
    var out := ExecuteToolCall(toolName, arguments, fs, root, utf8);
    FixedReplyHeads();
    if toolName == ListToolName {
      if out.Returned? {
        ListTextStart(WalkListing(fs, root).files);
      }
    } else if out.Returned? {
      if out.text != PathRequiredText {
        ReadReplyShape(arguments["path"].s, ReadMemoryFile(fs, root, arguments["path"].s, utf8));
      }
    }
  }

  /** A tool name is answered with the unknown-tool error, naming it, exactly when no schema offers it. */
  lemma UnknownToolIffNotOffered(toolName: string, arguments: map<string, Json>, fs: FileSystem, root: Path, utf8: Codec)
    ensures IsUnknownToolError(ExecuteToolCall(toolName, arguments, fs, root, utf8)) <==> !Offered(toolName)
    ensures !Offered(toolName) ==>
      ExecuteToolCall(toolName, arguments, fs, root, utf8) == Returned(UnknownToolReply(toolName), fs)
  {
    OfferedTools(toolName);
    if toolName == ListToolName || toolName == ReadToolName {
      KnownToolsAnswerOtherwise(toolName, arguments, fs, root, utf8);
    } else {
      assert UnknownToolPrefix <= UnknownToolPrefix + toolName + "'";
    }
  }

  /**
   * `execute_tool_call` raises only when a missing root cannot be created
   * for the list tool, or when the read tool gets a truthy `path` that is
   * not a string; every other failure comes back as text.
   */
  lemma RaisesOnlyWhen(toolName: string, arguments: map<string, Json>, fs: FileSystem, root: Path, utf8: Codec)
    ensures ExecuteToolCall(toolName, arguments, fs, root, utf8).Raised? <==>
      || (toolName == ListToolName && root !in fs && !(Parent(root) in fs && fs[Parent(root)].Dir?))
      || (toolName == ReadToolName && "path" in arguments && Truthy(arguments["path"]) && !arguments["path"].JString?)
  {
    if toolName == ListToolName && root !in fs {
      MissingRootIsCreated(fs, root);
    }
  }

  /** A missing, empty or otherwise falsy `path` is reported the same way whatever the filesystem holds. */
  lemma MissingPathIsReported(arguments: map<string, Json>, fs: FileSystem, root: Path, utf8: Codec)
    requires "path" !in arguments || !Truthy(arguments["path"])
    ensures ExecuteToolCall(ReadToolName, arguments, fs, root, utf8) == Returned(PathRequiredText, fs)
  {
  }

  /**
   * A read given a non-empty string `path`, the one parameter its schema
   * requires, is never refused as missing and never raises.
   */
  lemma StringPathIsAccepted(path: string, arguments: map<string, Json>, fs: FileSystem, root: Path, utf8: Codec)
    requires "path" in arguments && arguments["path"] == JString(path) && path != ""
    ensures ExecuteToolCall(ReadToolName, arguments, fs, root, utf8).Returned?
    ensures ExecuteToolCall(ReadToolName, arguments, fs, root, utf8).text != PathRequiredText
  {
    var r := ReadMemoryFile(fs, root, path, utf8);
    FixedReplyHeads();
    assert ExecuteToolCall(ReadToolName, arguments, fs, root, utf8) == Returned(ReadReply(path, r), fs);
    ReadReplyShape(path, r);
  }

  /**
   * A read answers with the content header exactly when the file was read,
   * and the content follows the header unchanged; otherwise it names the
   * path and the reason. The filesystem is left as it was.
   */
  lemma ReadDispatch(path: string, arguments: map<string, Json>, fs: FileSystem, root: Path, utf8: Codec)
    requires "path" in arguments && arguments["path"] == JString(path) && path != ""
    ensures var out := ExecuteToolCall(ReadToolName, arguments, fs, root, utf8);
      var r := ReadMemoryFile(fs, root, path, utf8);
      && out.Returned? && out.after == fs
      && (ContentsHeader(path) <= out.text <==> r.Read?)
      && (r.Read? ==> out.text[|ContentsHeader(path)|..] == r.text)
      && (r.Failed? ==> out.text == ErrorHeader(path) + ReadErrorMessage(path, r.error))
  {
    ReadReplyShape(path, ReadMemoryFile(fs, root, path, utf8));
  }

  /** A path that escapes the root is answered with the sandbox message, whatever the filesystem holds. */
  lemma EscapingPathIsReported(path: string, arguments: map<string, Json>, fs: FileSystem, root: Path, utf8: Codec)
    requires "path" in arguments && arguments["path"] == JString(path) && path != ""
    requires !(root <= Locate(root, path))
    ensures ExecuteToolCall(ReadToolName, arguments, fs, root, utf8) ==
      Returned(ErrorHeader(path) + ReadErrorMessage(path, OutsideRoot), fs)
  {
  }

  /**
   * With the root present, the list tool shows the sorted listing, one
   * bullet per visible file; the sentinel appears exactly when the root holds
   * no visible file.
   */
  lemma ListDispatch(arguments: map<string, Json>, fs: FileSystem, root: Path, utf8: Codec)
    requires root in fs
    ensures var out := ExecuteToolCall(ListToolName, arguments, fs, root, utf8);
      && out == Returned(FormatListing(WalkListing(fs, root).files), fs)
      && (out.text == NoFilesText <==> forall k :: k in fs && root < k ==> !(fs[k].File? && !IsHidden(k[|k| - 1])))
  {
    var files := WalkListing(fs, root).files;
    FixedReplyHeads();
    ListTextStart(files);
    EmptyListingIffNoVisibleFile(fs, root);
  }
}
