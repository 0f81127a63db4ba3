/** The backend edits on the text of the file (internal/server/upload.go). */
module PluginFiles {
  import opened SourceText
  import opened BackendPlugin
  import opened BackendPluginUndo

  function RegisterText(text: string, plugin: string): string {
    JoinLines(Registered(SplitLines(text), plugin))
  }

  function UnregisterText(text: string, plugin: string): string {
    JoinLines(Unregistered(SplitLines(text), plugin))
  }

  lemma InsertedSingleLines(plugin: string)
    requires IsPluginName(plugin)
    ensures !HasChar(ImportLine(plugin), '\n') && SingleLines([""] + Registration(plugin))
  {
    hide IsPluginName;
    NameLacks(plugin, '\n');
    ImportLineLacks(plugin, '\n');
    var r := Registration(plugin);
    LacksThree("\t// 注册 ", plugin, " 插件", '\n');
    assert r[0] == "\t// 注册 " + plugin + " 插件";
    IfLineText(plugin);
    LiteralsLack();
    LacksThree(IF_HEAD, plugin, IF_TAIL, '\n');
    LogLineLacks(plugin, '\n');
  }

  lemma InsertSingle(lines: seq<string>, at: nat, new_: seq<string>)
    requires at <= |lines| && SingleLines(lines) && SingleLines(new_)
    ensures SingleLines(Insert(lines, at, new_))
  {
    hide HasChar;
    assert lines == lines[..at] + lines[at..];
  }

  lemma RegisteredSingle(lines: seq<string>, plugin: string)
    requires lines != [] && SingleLines(lines) && IsPluginName(plugin)
    ensures Registered(lines, plugin) != [] && SingleLines(Registered(lines, plugin))
  {
    hide Contains, ImportLine, Registration, HasChar, IsPluginName, ImportClose, RegistrationPlace, TrimSpace;
    InsertedSingleLines(plugin);
    if WithImport(lines, plugin) != lines {
      InsertSingle(lines, ImportClose(lines, false).value, [ImportLine(plugin)]);
    }
    var imported := WithImport(lines, plugin);
    if RegistrationPlace(imported).Some? {
      InsertSingle(imported, RegistrationPlace(imported).value, [""] + Registration(plugin));
    }
  }

  lemma {:induction false} UnregisteredSingle(lines: seq<string>, plugin: string)
    requires SingleLines(lines)
    ensures SingleLines(Unregistered(lines, plugin))
    decreases |lines|
  {
    hide Contains, BlockLength, HasChar, TrimSpace;
    if lines != [] {
      UnregisteredSingle(lines[1..], plugin);
      UnregisteredSingle(From(lines, BlockLength(lines)), plugin);
    }
  }

  /** Two lists of single lines with the same text are equal, but for the empty list. */
  lemma SameText(a: seq<string>, b: seq<string>)
    requires a != [] && b != [] && SingleLines(a) && SingleLines(b)
    ensures JoinLines(a) == JoinLines(b) <==> a == b
  {
    SplitJoin(a);
    SplitJoin(b);
  }

  /** On whole files: unregistering restores the text, byte for byte, exactly under the condition on its lines. */
  lemma UnregisterRestoresFile(text: string, plugin: string)
    requires IsPluginName(plugin) && AllUnrelated(SplitLines(text), plugin)
    ensures UnregisterText(RegisterText(text, plugin), plugin) == text <==>
            RegistrationPlace(SplitLines(text)).None? || BlankBehind(SplitLines(text))
  {
    hide Contains, ImportLine, Registration, HasChar, IsPluginName, RegistrationPlace, Registered, Unregistered,
         BlankBehind, AllUnrelated;
    var lines := SplitLines(text);
    JoinSplit(text);
    RegisteredSingle(lines, plugin);
    SplitJoin(Registered(lines, plugin));
    var back := Unregistered(Registered(lines, plugin), plugin);
    UnregisteredSingle(Registered(lines, plugin), plugin);
    UnregisterUndoesRegister(lines, plugin);
    if back != [] {
      SameText(back, lines);
    } else if text == "" {
      assert lines == [""];
      NoPlaceInEmptyFile();
    }
  }

  lemma NoPlaceInEmptyFile()
    ensures RegistrationPlace([""]).None?
  {
    assert [""][..0] == [];
  }
}
