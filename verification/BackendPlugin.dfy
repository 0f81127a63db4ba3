/**
 Adding a plugin to, and removing it from, the Go source that registers all
 plugins (internal/server/upload.go, acting on internal/server/http.go).

 Both edits scan the lines with running indices and brace counters; the
 functions below say what those scans find, the methods are the scans.
 */
module BackendPlugin {
  import opened Common
  import opened SourceText

  const IMPORT_ROOT := "github.com/ydcloud-dy/opshub/plugins/"
  const REGISTER_CALL := "pluginMgr.Register("
  const IMPORT_OPEN := "import ("

  function ImportPath(plugin: string): string {
    IMPORT_ROOT + plugin
  }

  function NewCall(plugin: string): string {
    plugin + "plugin.New()"
  }

  function CommentText(plugin: string): string {
    "// 注册 " + plugin + " 插件"
  }

  function IfText(plugin: string): string {
    "if err := pluginMgr.Register(" + plugin + "plugin.New())"
  }

  function ImportLine(plugin: string): string {
    "\t" + plugin + "plugin \"" + ImportPath(plugin) + "\""
  }

  /** The lines of one registration, after the empty line that separates it. */
  function Registration(plugin: string): (lines: seq<string>)
    ensures |lines| == 4
  {
    [ "\t" + CommentText(plugin),
      "\t" + IfText(plugin) + "; err != nil {",
      "\t\tappLogger.Error(\"注册" + plugin + "插件失败\", zap.Error(err))",
      "\t}" ]
  }

  /** Directory names offered for a plugin hold no '/' and no '.'; the others break Go syntax. */
  predicate IsPluginName(plugin: string) {
    plugin != "" && forall i | 0 <= i < |plugin| :: plugin[i] !in "/.{}()\"\n"
  }

  // ----- what the scans find -----

  predicate MentionsImport(lines: seq<string>, plugin: string) {
    exists i | 0 <= i < |lines| :: Contains(lines[i], ImportPath(plugin))
  }

  predicate MentionsCall(lines: seq<string>, plugin: string) {
    exists i | 0 <= i < |lines| :: Contains(lines[i], NewCall(plugin))
  }

  /** Index of the line that closes the first import block. */
  function ImportClose(lines: seq<string>, inBlock: bool): (r: Option<nat>)
    ensures r.Some? ==> r.value < |lines| && TrimSpace(lines[r.value]) == ")"
  {
    if lines == [] then None
    else
      var inBlock' := inBlock || Contains(lines[0], IMPORT_OPEN);
      if inBlock' && TrimSpace(lines[0]) == ")" then Some(0)
      else Behind(1, ImportClose(lines[1..], inBlock'))
  }

  /** An index into the rest of a list as an index into the list. */
  function Behind(n: nat, index: Option<nat>): Option<nat> {
    if index.None? then None else Some(n + index.value)
  }

  /** The lines from the last registration call on, if there is one. */
  function LastCall(lines: seq<string>): (r: Option<nat>)
    ensures r.Some? ==> r.value < |lines|
  {
    if lines == [] then None
    else if Contains(lines[|lines| - 1], REGISTER_CALL) then Some(|lines| - 1)
    else LastCall(lines[..|lines| - 1])
  }

  /** Index of the line at which the brace-delimited block opened here is balanced again. */
  function BlockClose(lines: seq<string>, count: int, open: bool): Option<nat> {
    if lines == [] then None
    else
      var opens, closes := Contains(lines[0], "{"), Contains(lines[0], "}");
      var open', count' := open || opens, count + (if opens then 1 else 0) - (if closes then 1 else 0);
      if closes && open' && count' == 0 then Some(0)
      else Behind(1, BlockClose(lines[1..], count', open'))
  }

  lemma {:induction false} BlockCloseInside(lines: seq<string>, count: int, open: bool)
    ensures BlockClose(lines, count, open).Some? ==> BlockClose(lines, count, open).value < |lines|
  {
    if lines != [] {
      var opens, closes := Contains(lines[0], "{"), Contains(lines[0], "}");
      BlockCloseInside(lines[1..], count + (if opens then 1 else 0) - (if closes then 1 else 0), open || opens);
    }
  }

  /** Where a registration goes: behind the block of the last registration call. */
  function RegistrationPlace(lines: seq<string>): (r: Option<nat>)
    ensures r.Some? ==> 0 < r.value <= |lines|
  {
    match LastCall(lines)
    case None => None
    case Some(call) =>
      BlockCloseInside(lines[call..], 0, false);
      Behind(call + 1, BlockClose(lines[call..], 0, false))
  }

  function Insert(lines: seq<string>, at: nat, new_: seq<string>): seq<string>
    requires at <= |lines|
  {
    lines[..at] + new_ + lines[at..]
  }

  // ----- registering -----

  function WithImport(lines: seq<string>, plugin: string): seq<string> {
    if MentionsImport(lines, plugin) || ImportClose(lines, false).None? then lines
    else Insert(lines, ImportClose(lines, false).value, [ImportLine(plugin)])
  }

  function WithRegistration(lines: seq<string>, plugin: string): seq<string> {
    if RegistrationPlace(lines).None? then lines
    else Insert(lines, RegistrationPlace(lines).value, [""] + Registration(plugin))
  }

  /** The source after registering; both tests look at the original lines. */
  function Registered(lines: seq<string>, plugin: string): seq<string> {
    if MentionsCall(lines, plugin) then WithImport(lines, plugin)
    else WithRegistration(WithImport(lines, plugin), plugin)
  }

  method FindImportClose(lines: seq<string>) returns (index: Option<nat>)
    ensures index == ImportClose(lines, false)
  {
    hide Contains, TrimSpace;
    var inBlock := false;
    for i := 0 to |lines|
      invariant ImportClose(lines, false) == Behind(i, ImportClose(lines[i..], inBlock))
    {
      if Contains(lines[i], IMPORT_OPEN) {
        inBlock := true;
      }
      if inBlock && TrimSpace(lines[i]) == ")" {
        return Some(i);
      }
      assert lines[i..][1..] == lines[i + 1..];
    }
    return None;
  }

  method FindLastCall(lines: seq<string>) returns (index: Option<nat>)
    ensures index == LastCall(lines)
  {
    hide Contains;
    var i := |lines| - 1;
    assert lines[..|lines|] == lines;
    while 0 <= i
      invariant -1 <= i < |lines|
      invariant LastCall(lines) == LastCall(lines[..i + 1])
    {
      if Contains(lines[i], REGISTER_CALL) {
        return Some(i);
      }
      assert lines[..i + 1][..i] == lines[..i];
      i := i - 1;
    }
    return None;
  }

  /** Walks from `start` to the line that balances the braces opened since then. */
  method FindBlockClose(lines: seq<string>, start: nat) returns (end: nat)
    requires start <= |lines|
    ensures var close := BlockClose(lines[start..], 0, false);
            end == if close.None? then |lines| else start + close.value
    ensures end <= |lines|
  {
    hide Contains;
    var braceCount := 0;
    var foundOpening := false;
    end := start;
    while end < |lines|
      invariant start <= end <= |lines|
      invariant BlockClose(lines[start..], 0, false) ==
                Behind(end - start, BlockClose(lines[end..], braceCount, foundOpening))
    {
      assert lines[end..][1..] == lines[end + 1..];
      if Contains(lines[end], "{") {
        foundOpening := true;
        braceCount := braceCount + 1;
      }
      if Contains(lines[end], "}") {
        braceCount := braceCount - 1;
        if foundOpening && braceCount == 0 {
          return;
        }
      }
      end := end + 1;
    }
  }

  method Register(text: seq<string>, plugin: string) returns (lines: seq<string>)
    ensures lines == Registered(text, plugin)
  {
    hide Contains, TrimSpace, ImportClose, LastCall, BlockClose, ImportLine, Registration, ImportPath, NewCall;
    lines := text;
    var importExists, registrationExists := false, false;
    for i := 0 to |lines|
      invariant importExists == MentionsImport(lines[..i], plugin)
      invariant registrationExists == MentionsCall(lines[..i], plugin)
    {
      MentionsStep(lines, i, plugin);
      if Contains(lines[i], ImportPath(plugin)) {
        importExists := true;
      }
      if Contains(lines[i], NewCall(plugin)) {
        registrationExists := true;
      }
    }
    assert lines[..|lines|] == lines;
    if importExists && registrationExists {
      return;
    }
    if !importExists {
      var close := FindImportClose(lines);
      if close.Some? {
        lines := lines[..close.value] + ([ImportLine(plugin)] + lines[close.value..]);
      }
    }
    assert lines == WithImport(text, plugin);
    if !registrationExists {
      var call := FindLastCall(lines);
      var place: Option<nat> := None;
      if call.Some? {
        var end := FindBlockClose(lines, call.value);
        BlockCloseInside(lines[call.value..], 0, false);
        if end < |lines| {
          place := Some(end + 1);
        }
      }
      if place.Some? {
        lines := lines[..place.value] + (([""] + Registration(plugin)) + lines[place.value..]);
      }
    }
  }

  lemma MentionsStep(lines: seq<string>, i: nat, plugin: string)
    requires i < |lines|
    ensures MentionsImport(lines[..i + 1], plugin) <==>
            MentionsImport(lines[..i], plugin) || Contains(lines[i], ImportPath(plugin))
    ensures MentionsCall(lines[..i + 1], plugin) <==>
            MentionsCall(lines[..i], plugin) || Contains(lines[i], NewCall(plugin))
  {
    var before, after := lines[..i], lines[..i + 1];
    assert after == before + [lines[i]];
    assert forall j | 0 <= j < |before| :: after[j] == before[j];
    assert after[i] == lines[i];
  }

  // ----- unregistering -----

  predicate IsImportOf(line: string, plugin: string) {
    Contains(line, ImportPath(plugin)) && Contains(line, "\"")
  }

  predicate StartsRegistration(line: string, plugin: string) {
    Contains(TrimSpace(line), CommentText(plugin)) || Contains(TrimSpace(line), IfText(plugin))
  }

  /** The length of the registration block that starts with the first of `lines`. */
  function BlockLength(lines: seq<string>): (n: nat)
    requires lines != []
    ensures 0 < n <= |lines| + 1
  {
    var if_ := if Contains(TrimSpace(lines[0]), "//") then 1 else 0;
    var close := BlockClose(lines[if_..], 0, false);
    BlockCloseInside(lines[if_..], 0, false);
    var end := if close.None? then |lines| + 1 else if_ + close.value + 1;
    if end < |lines| && TrimSpace(lines[end]) == "" then end + 1 else end
  }

  /** The lines without the plugin's imports and registration blocks. */
  function Unregistered(lines: seq<string>, plugin: string): seq<string>
    decreases |lines|
  {
    if lines == [] then []
    else if IsImportOf(lines[0], plugin) then Unregistered(lines[1..], plugin)
    else if StartsRegistration(lines[0], plugin) then Unregistered(From(lines, BlockLength(lines)), plugin)
    else [lines[0]] + Unregistered(lines[1..], plugin)
  }

  function From<T>(s: seq<T>, i: nat): seq<T> {
    if i <= |s| then s[i..] else []
  }

  /** Steps over the registration block that starts at line `start`. */
  method SkipRegistration(lines: seq<string>, start: nat) returns (next: nat)
    requires start < |lines|
    ensures next == start + BlockLength(lines[start..])
  {
    hide Contains, TrimSpace, BlockClose;
    var rest := lines[start..];
    var i := start;
    if Contains(TrimSpace(lines[i]), "//") {
      i := i + 1;
    }
    assert lines[i..] == rest[i - start..];
    var blockEnd := FindBlockClose(lines, i);
    BlockCloseInside(lines[i..], 0, false);
    next := blockEnd + 1;
    if next < |lines| && TrimSpace(lines[next]) == "" {
      next := next + 1;
    }
  }

  method Unregister(lines: seq<string>, plugin: string) returns (filtered: seq<string>)
    ensures filtered == Unregistered(lines, plugin)
  {
    hide Contains, TrimSpace, BlockClose, BlockLength, CommentText, IfText, ImportPath;
    filtered := [];
    var i := 0;
    while i < |lines|
      invariant 0 <= i <= |lines| + 1
      invariant filtered + Unregistered(From(lines, i), plugin) == Unregistered(lines, plugin)
    {
      var rest := lines[i..];
      assert From(lines, i) == rest && rest[0] == lines[i];
      if Contains(lines[i], ImportPath(plugin)) && Contains(lines[i], "\"") {
        assert rest[1..] == From(lines, i + 1);
        i := i + 1;
        continue;
      }
      var trimmed := TrimSpace(lines[i]);
      if Contains(trimmed, CommentText(plugin)) || Contains(trimmed, IfText(plugin)) {
        var next := SkipRegistration(lines, i);
        assert From(lines, next) == From(rest, BlockLength(rest));
        i := next;
        continue;
      }
      assert rest[1..] == From(lines, i + 1);
      assert filtered + ([lines[i]] + Unregistered(rest[1..], plugin))
          == (filtered + [lines[i]]) + Unregistered(rest[1..], plugin);
      filtered := filtered + [lines[i]];
      i := i + 1;
    }
  }
}
