/** Registering a backend plugin, doing it twice, and undoing it (internal/server/upload.go). */
module BackendPluginUndo {
  import opened Common
  import opened SourceText
  import opened BackendPlugin

  // ----- the inserted lines, character by character -----

  lemma MissingChar(s: string, pat: string, k: nat)
    requires k < |pat| && !HasChar(s, pat[k])
    ensures !Contains(s, pat)
  {
    if i: nat :| i <= |s| && OccursAt(s, pat, i) {
      assert s[i + k] == s[i..i + |pat|][k];
    }
  }

  lemma NameLacks(plugin: string, c: char)
    requires IsPluginName(plugin) && c in "/.{}()\"\n"
    ensures !HasChar(plugin, c) && plugin != ""
  {
  }

  lemma LacksThree(a: string, b: string, d: string, c: char)
    requires !HasChar(a, c) && !HasChar(b, c) && !HasChar(d, c)
    ensures !HasChar(a + b + d, c)
  {
    HasCharConcat(a, b, c);
    HasCharConcat(a + b, d, c);
  }

  lemma ImportLineLacks(plugin: string, c: char)
    requires IsPluginName(plugin) && c in "{}(\n"
    ensures !HasChar(ImportLine(plugin), c)
  {
    NameLacks(plugin, c);
    QuotedRootLacks(c);
    hide HasChar, IsPluginName;
    var head, mid := "\t" + plugin, "plugin \"" + IMPORT_ROOT;
    LacksThree("\t", plugin, mid, c);
    LacksThree(head + mid, plugin, "\"", c);
    assert ImportLine(plugin) == head + mid + plugin + "\"";
  }

  lemma QuotedRootLacks(c: char)
    requires c in "{}(\n"
    ensures !HasChar("\t", c) && !HasChar("\"", c) && !HasChar("plugin \"" + IMPORT_ROOT, c)
  {
  }

  lemma ImportLineNamesPlugin(plugin: string)
    ensures IsImportOf(ImportLine(plugin), plugin)
  {
    hide Contains, ImportPath;
    var path := ImportPath(plugin);
    Embedded("\t" + plugin + "plugin \"", path, "\"");
    var head := "\t" + plugin + "plugin ";
    Embedded(head, "\"", path + "\"");
    assert head + "\"" + (path + "\"") == head + "\"" + path + "\"";
    assert "\t" + plugin + "plugin \"" == head + "\"";
  }

  /** The import line is inert for every scan but that for imports. */
  lemma ImportLineInert(plugin: string)
    requires IsPluginName(plugin)
    ensures !Contains(ImportLine(plugin), "{") && !Contains(ImportLine(plugin), "}")
    ensures !Contains(ImportLine(plugin), REGISTER_CALL)
    ensures TrimSpace(ImportLine(plugin)) != ""
  {
    hide Contains, ImportPath, TrimSpace, IsPluginName;
    var line := ImportLine(plugin);
    ImportLineLacks(plugin, '{');
    ImportLineLacks(plugin, '}');
    ImportLineLacks(plugin, '(');
    ContainsChar(line, '{');
    ContainsChar(line, '}');
    MissingChar(line, REGISTER_CALL, 18);
    assert line[|line| - 1] == '"';
    TrimKeeps(line, |line| - 1);
  }

  /** Trimming never removes a visible character. */
  lemma {:induction false} TrimKeeps(s: string, i: nat)
    requires i < |s| && !IsSpace(s[i])
    ensures HasChar(TrimSpace(s), s[i])
  {
    TrimLeftKeeps(s, i);
    var t := TrimLeft(s);
    var j :| 0 <= j < |t| && t[j] == s[i];
    TrimRightKeeps(t, j);
  }

  lemma {:induction false} TrimLeftKeeps(s: string, i: nat)
    requires i < |s| && !IsSpace(s[i])
    ensures HasChar(TrimLeft(s), s[i])
  {
    if IsSpace(s[0]) {
      TrimLeftKeeps(s[1..], i - 1);
    }
  }

  lemma {:induction false} TrimRightKeeps(s: string, i: nat)
    requires i < |s| && !IsSpace(s[i])
    ensures HasChar(TrimRight(s), s[i])
  {
    if IsSpace(s[|s| - 1]) {
      TrimRightKeeps(s[..|s| - 1], i);
    }
  }

  /** Of the registration, the comment line starts a block and the next three lines balance one. */
  lemma RegistrationBlock(plugin: string, behind: seq<string>)
    requires IsPluginName(plugin)
    ensures StartsRegistration(Registration(plugin)[0], plugin)
    ensures BlockLength(Registration(plugin) + behind) ==
            if behind != [] && TrimSpace(behind[0]) == "" then 5 else 4
  {
    var r := Registration(plugin);
    var lines := r + behind;
    CommentLine(plugin);
    Braces(plugin);
    hide Contains, TrimSpace, Registration, CommentText;
    var b := [r[1], r[2], r[3]] + behind;
    assert lines[1..] == b && b[1..] == [r[2], r[3]] + behind && b[2..] == [r[3]] + behind;
    assert b[1..][1..] == b[2..];
    assert BlockClose(b[2..], 1, true) == Some(0);
    assert BlockClose(b[1..], 1, true) == Some(1);
    assert BlockClose(b, 0, false) == Some(2);
    if behind != [] {
      assert lines[4] == behind[0];
    }
  }

  lemma CommentLine(plugin: string)
    ensures TrimSpace(Registration(plugin)[0]) == CommentText(plugin)
    ensures Contains(CommentText(plugin), CommentText(plugin)) && Contains(CommentText(plugin), "//")
  {
    var text := CommentText(plugin);
    assert text[|text| - 1] == '件';
    TrimOneTab(text);
    assert OccursAt(text, text, 0);
    assert OccursAt(text, "//", 0);
  }

  lemma Braces(plugin: string)
    requires IsPluginName(plugin)
    ensures var r := Registration(plugin);
            && Contains(r[1], "{") && !Contains(r[1], "}")
            && !Contains(r[2], "{") && !Contains(r[2], "}")
            && !Contains(r[3], "{") && Contains(r[3], "}")
  {
    hide Contains, IsPluginName;
    var r := Registration(plugin);
    NameLacks(plugin, '{');
    NameLacks(plugin, '}');
    IfLineBraces(plugin);
    LogLineLacks(plugin, '{');
    LogLineLacks(plugin, '}');
    assert r[3][1] == '}';
    ContainsChar(r[1], '{');
    ContainsChar(r[1], '}');
    ContainsChar(r[2], '{');
    ContainsChar(r[2], '}');
    ContainsChar(r[3], '{');
    ContainsChar(r[3], '}');
  }

  const IF_HEAD := "\tif err := pluginMgr.Register("
  const IF_TAIL := "plugin.New()); err != nil {"

  lemma IfLineBraces(plugin: string)
    requires !HasChar(plugin, '}')
    ensures HasChar(Registration(plugin)[1], '{') && !HasChar(Registration(plugin)[1], '}')
  {
    var line := Registration(plugin)[1];
    IfLineText(plugin);
    assert line[|line| - 1] == IF_TAIL[|IF_TAIL| - 1] == '{';
    LiteralsLack();
    LacksThree(IF_HEAD, plugin, IF_TAIL, '}');
  }

  lemma LiteralsLack()
    ensures !HasChar(IF_HEAD, '}') && !HasChar(IF_TAIL, '}')
    ensures !HasChar(IF_HEAD, '/') && !HasChar(IF_TAIL, '/')
    ensures !HasChar(IF_HEAD, '\n') && !HasChar(IF_TAIL, '\n')
  {
  }

  lemma IfLineText(plugin: string)
    ensures Registration(plugin)[1] == IF_HEAD + plugin + IF_TAIL
  {
    var a, b, c, d := "\t", "if err := pluginMgr.Register(", "plugin.New())", "; err != nil {";
    Regroup(a, b, plugin, c, d);
    assert a + b == IF_HEAD && c + d == IF_TAIL;
  }

  lemma Associate(a: string, b: string, c: string, d: string)
    ensures a + (b + c) + d == a + b + (c + d)
  {
  }

  lemma Regroup(a: string, b: string, mid: string, c: string, d: string)
    ensures a + (b + mid + c) + d == (a + b) + mid + (c + d)
  {
  }

  lemma LogLineLacks(plugin: string, c: char)
    requires !HasChar(plugin, c) && c in "{}/\n"
    ensures !HasChar(Registration(plugin)[2], c)
  {
    var head, tail := "\t\tappLogger.Error(\"注册", "插件失败\", zap.Error(err))";
    LacksThree(head, plugin, tail, c);
    assert Registration(plugin)[2] == head + plugin + tail;
  }

  // ----- removing what was inserted -----

  /** A line that no test made for `plugin` reacts to. */
  predicate Unrelated(line: string, plugin: string) {
    && !Contains(line, ImportPath(plugin))
    && !Contains(line, NewCall(plugin))
    && !StartsRegistration(line, plugin)
  }

  predicate AllUnrelated(lines: seq<string>, plugin: string) {
    forall i | 0 <= i < |lines| :: Unrelated(lines[i], plugin)
  }

  /** The line is taken for an import or for the start of a registration of the plugin. */
  predicate Reacts(line: string, plugin: string) {
    IsImportOf(line, plugin) || StartsRegistration(line, plugin)
  }

  predicate NoneReacts(lines: seq<string>, plugin: string) {
    forall i | 0 <= i < |lines| :: !Reacts(lines[i], plugin)
  }

  predicate OnlyImportReacts(lines: seq<string>, plugin: string) {
    forall i | 0 <= i < |lines| :: !Reacts(lines[i], plugin) || lines[i] == ImportLine(plugin)
  }

  lemma UnrelatedReacts(lines: seq<string>, plugin: string)
    requires AllUnrelated(lines, plugin)
    ensures NoneReacts(lines, plugin)
  {
    hide Contains, StartsRegistration;
    assert forall i | 0 <= i < |lines| :: Unrelated(lines[i], plugin);
  }

  function WithoutImport(lines: seq<string>, plugin: string): seq<string> {
    if lines == [] then []
    else if lines[0] == ImportLine(plugin) then WithoutImport(lines[1..], plugin)
    else [lines[0]] + WithoutImport(lines[1..], plugin)
  }

  lemma {:induction false} WithoutImportConcat(a: seq<string>, b: seq<string>, plugin: string)
    ensures WithoutImport(a + b, plugin) == WithoutImport(a, plugin) + WithoutImport(b, plugin)
  {
    if a == [] {
      assert a + b == b;
    } else {
      assert (a + b)[1..] == a[1..] + b && (a + b)[0] == a[0];
      WithoutImportConcat(a[1..], b, plugin);
    }
  }

  lemma {:induction false} WithoutImportNothing(lines: seq<string>, plugin: string)
    requires NoneReacts(lines, plugin)
    ensures WithoutImport(lines, plugin) == lines
  {
    hide IsImportOf, StartsRegistration, ImportLine;
    if lines != [] {
      ImportLineNamesPlugin(plugin);
      assert !Reacts(lines[0], plugin);
      WithoutImportNothing(lines[1..], plugin);
    }
  }

  /** Unregistering passes over a line that does not react and drops the import line. */
  lemma UnregisterPassesOne(line: string, rest: seq<string>, plugin: string)
    requires !Reacts(line, plugin) || line == ImportLine(plugin)
    ensures Unregistered([line] + rest, plugin) ==
            (if line == ImportLine(plugin) then [] else [line]) + Unregistered(rest, plugin)
  {
    hide Contains, TrimSpace, ImportLine, BlockLength, ImportPath, NewCall;
    ImportLineNamesPlugin(plugin);
    assert ([line] + rest)[1..] == rest;
  }

  lemma {:induction false} UnregisterPasses(a: seq<string>, b: seq<string>, plugin: string)
    requires OnlyImportReacts(a, plugin)
    ensures Unregistered(a + b, plugin) == WithoutImport(a, plugin) + Unregistered(b, plugin)
  {
    hide Reacts, Unregistered, ImportLine;
    if a == [] {
      assert a + b == b;
    } else {
      var line, rest := a[0], a[1..];
      UnregisterPasses(rest, b, plugin);
      UnregisterPassesOne(line, rest + b, plugin);
      assert a + b == [line] + (rest + b);
    }
  }

  lemma EmptyLineUnrelated(plugin: string)
    ensures Unrelated("", plugin) && !Reacts("", plugin)
  {
  }

  function SkipBlank(lines: seq<string>): seq<string> {
    if lines != [] && TrimSpace(lines[0]) == "" then lines[1..] else lines
  }

  /** The whole inserted piece goes, and with it one blank line behind it. */
  lemma RegistrationGoes(plugin: string, behind: seq<string>)
    requires IsPluginName(plugin)
    ensures Unregistered(Registration(plugin) + behind, plugin) ==
            Unregistered(SkipBlank(behind), plugin)
  {
    hide Contains, TrimSpace, BlockLength, StartsRegistration;
    var lines := Registration(plugin) + behind;
    RegistrationBlock(plugin, behind);
    CommentIsNoImport(plugin);
    assert lines[0] == Registration(plugin)[0];
    assert From(lines, 4) == behind;
    if behind != [] {
      assert From(lines, 5) == behind[1..];
    }
  }

  lemma CommentIsNoImport(plugin: string)
    requires IsPluginName(plugin)
    ensures !IsImportOf(Registration(plugin)[0], plugin)
  {
    var line := Registration(plugin)[0];
    NameLacks(plugin, '.');
    LacksThree("\t// 注册 ", plugin, " 插件", '.');
    assert line == "\t// 注册 " + plugin + " 插件";
    assert ImportPath(plugin)[6] == '.';
    MissingChar(line, ImportPath(plugin), 6);
  }

  /** There is a line right behind the registration block that is looked for, and it is empty. */
  predicate BlankBehind(lines: seq<string>) {
    && RegistrationPlace(lines).Some?
    && RegistrationPlace(lines).value < |lines|
    && lines[RegistrationPlace(lines).value] == ""
  }

  lemma ReactingParts(front: seq<string>, behind: seq<string>, plugin: string)
    requires OnlyImportReacts(front + behind, plugin)
    ensures OnlyImportReacts(front, plugin) && OnlyImportReacts(behind, plugin)
    ensures OnlyImportReacts(front + [""], plugin)
  {
    hide Reacts, ImportLine;
    EmptyLineUnrelated(plugin);
    forall i | 0 <= i < |behind|
      ensures !Reacts(behind[i], plugin) || behind[i] == ImportLine(plugin)
    {
      assert (front + behind)[|front| + i] == behind[i];
    }
    forall i | 0 <= i < |front|
      ensures !Reacts(front[i], plugin) || front[i] == ImportLine(plugin)
    {
      assert (front + behind)[i] == front[i];
    }
  }

  /** What is left after undoing a registration inserted at a known place. */
  lemma UnregisterLeaves(front: seq<string>, behind: seq<string>, plugin: string)
    requires IsPluginName(plugin)
    requires OnlyImportReacts(front + behind, plugin)
    ensures Unregistered(front + ([""] + Registration(plugin)) + behind, plugin) ==
            WithoutImport(front, plugin) + [""] + WithoutImport(SkipBlank(behind), plugin)
  {
    hide Contains, TrimSpace, BlockLength, Registration, ImportLine, Reacts, Unregistered, IsPluginName;
    var kept := SkipBlank(behind);
    ReactingParts(front, behind, plugin);
    assert front + ([""] + Registration(plugin)) + behind == (front + [""]) + (Registration(plugin) + behind);
    UnregisterPasses(front + [""], Registration(plugin) + behind, plugin);
    RegistrationGoes(plugin, behind);
    UnregisterPasses(kept, [], plugin);
    UnregisterNothing(plugin);
    assert kept + [] == kept && WithoutImport(kept, plugin) + [] == WithoutImport(kept, plugin);
    WithoutImportConcat(front, [""], plugin);
    EmptyIsNotImport(plugin);
    assert WithoutImport([""], plugin) == [""];
  }

  /** Undoing a registration inserted at a known place, import line already there. */
  lemma UnregisterAt(front: seq<string>, behind: seq<string>, plugin: string)
    requires IsPluginName(plugin)
    requires OnlyImportReacts(front + behind, plugin)
    ensures Unregistered(front + ([""] + Registration(plugin)) + behind, plugin)
         == WithoutImport(front + behind, plugin)
       <==> behind != [] && behind[0] == ""
  {
    hide Contains, TrimSpace, Registration, ImportLine, Reacts, Unregistered, IsPluginName;
    UnregisterLeaves(front, behind, plugin);
    WithoutImportConcat(front, behind, plugin);
    ImportLineInert(plugin);
    EmptyTrim();
    var f := WithoutImport(front, plugin);
    if behind != [] && TrimSpace(behind[0]) == "" {
      OneForOne(f, behind[0], WithoutImport(behind[1..], plugin));
    } else {
      OneTooMany(f, WithoutImport(behind, plugin));
    }
  }

  lemma OneForOne(f: seq<string>, x: string, k: seq<string>)
    ensures f + [""] + k == f + ([x] + k) <==> x == ""
  {
    assert (f + [""] + k)[|f|] == "" && (f + ([x] + k))[|f|] == x;
  }

  lemma OneTooMany(f: seq<string>, b: seq<string>)
    ensures f + [""] + b != f + b
  {
    assert |f + [""] + b| == |f + b| + 1;
  }

  lemma EmptyTrim()
    ensures TrimSpace("") == ""
  {
  }

  lemma EmptyIsNotImport(plugin: string)
    ensures ImportLine(plugin) != ""
  {
  }

  // ----- the import line does not disturb the search for the registration block -----

  lemma {:induction false} LastCallConcat(a: seq<string>, b: seq<string>)
    ensures LastCall(a + b) == if LastCall(b).Some? then Behind(|a|, LastCall(b)) else LastCall(a)
  {
    if b == [] {
      assert a + b == a;
    } else {
      assert (a + b)[..|a + b| - 1] == a + b[..|b| - 1];
      LastCallConcat(a, b[..|b| - 1]);
    }
  }

  lemma {:induction false} BlockCloseInsert(a: seq<string>, line: string, b: seq<string>, count: int, open: bool)
    requires !Contains(line, "{") && !Contains(line, "}")
    ensures var close := BlockClose(a + b, count, open);
            BlockClose(a + [line] + b, count, open) ==
            if close.Some? && |a| <= close.value then Some(close.value + 1) else close
  {
    hide Contains;
    if a == [] {
      assert a + b == b && (a + [line] + b)[1..] == b;
    } else {
      var opens, closes := Contains(a[0], "{"), Contains(a[0], "}");
      assert (a + [line] + b)[1..] == a[1..] + [line] + b && (a + b)[1..] == a[1..] + b;
      BlockCloseInsert(a[1..], line, b, count + (if opens then 1 else 0) - (if closes then 1 else 0), open || opens);
    }
  }

  /** Where the registration block lies once `line` stands between `a` and `b`. */
  lemma PlaceShifts(a: seq<string>, line: string, b: seq<string>)
    requires !Contains(line, "{") && !Contains(line, "}") && !Contains(line, REGISTER_CALL)
    ensures var place := RegistrationPlace(a + b);
            RegistrationPlace(a + ([line] + b)) ==
            if place.Some? && |a| < place.value then Some(place.value + 1) else place
  {
    hide Contains, BlockClose, LastCall;
    OneLineCall(line);
    var with_, without := a + ([line] + b), a + b;
    LastCallConcat(a, [line] + b);
    LastCallConcat([line], b);
    LastCallConcat(a, b);
    if LastCall(b).Some? {
      var v := LastCall(b).value;
      assert with_[|a| + 1 + v..] == b[v..] == without[|a| + v..];
    } else if LastCall(a).Some? {
      var v := LastCall(a).value;
      assert with_[v..] == a[v..] + [line] + b && without[v..] == a[v..] + b;
      BlockCloseInsert(a[v..], line, b, 0, false);
    }
  }

  lemma OneLineCall(line: string)
    ensures LastCall([line]).Some? <==> Contains(line, REGISTER_CALL)
  {
    assert [line][..0] == [];
  }

  lemma PlaceAfterImport(a: seq<string>, line: string, b: seq<string>)
    requires !Contains(line, "{") && !Contains(line, "}") && !Contains(line, REGISTER_CALL)
    requires line != "" && b != [] && b[0] != ""
    ensures RegistrationPlace(a + [line] + b).Some? <==> RegistrationPlace(a + b).Some?
    ensures BlankBehind(a + [line] + b) <==> BlankBehind(a + b)
  {
    hide Contains, RegistrationPlace;
    var with_, without := a + ([line] + b), a + b;
    assert with_ == a + [line] + b;
    PlaceShifts(a, line, b);
    if RegistrationPlace(without).Some? {
      var at := RegistrationPlace(without).value;
      assert |a| < at < |without| ==> with_[at + 1] == without[at];
      assert at < |a| ==> with_[at] == without[at];
    }
  }

  /** The registration block found after the import line was added is the one in the original. */
  lemma ImportKeepsPlace(lines: seq<string>, plugin: string)
    requires IsPluginName(plugin)
    ensures RegistrationPlace(WithImport(lines, plugin)).Some? <==> RegistrationPlace(lines).Some?
    ensures BlankBehind(WithImport(lines, plugin)) <==> BlankBehind(lines)
  {
    hide Contains, RegistrationPlace, BlankBehind, ImportLine, ImportClose, TrimSpace;
    if !MentionsImport(lines, plugin) && ImportClose(lines, false).Some? {
      var at := ImportClose(lines, false).value;
      ImportLineInert(plugin);
      EmptyTrim();
      EmptyIsNotImport(plugin);
      assert lines[at..][0] == lines[at];
      PlaceAfterImport(lines[..at], ImportLine(plugin), lines[at..]);
      assert lines[..at] + lines[at..] == lines;
    }
  }

  // ----- the theorems -----

  lemma WithImportReacts(lines: seq<string>, plugin: string)
    requires NoneReacts(lines, plugin)
    ensures OnlyImportReacts(WithImport(lines, plugin), plugin)
    ensures WithoutImport(WithImport(lines, plugin), plugin) == lines
  {
    hide Contains, TrimSpace, ImportClose, ImportLine, Reacts;
    WithoutImportNothing(lines, plugin);
    if WithImport(lines, plugin) != lines {
      var at := ImportClose(lines, false).value;
      assert lines[..at] + lines[at..] == lines;
      ImportBetween(lines[..at], lines[at..], plugin);
    }
  }

  lemma ImportBetween(a: seq<string>, b: seq<string>, plugin: string)
    requires NoneReacts(a, plugin) && NoneReacts(b, plugin)
    ensures OnlyImportReacts(a + [ImportLine(plugin)] + b, plugin)
    ensures WithoutImport(a + [ImportLine(plugin)] + b, plugin) == a + b
  {
    hide ImportLine, Reacts;
    WithoutImportNothing(a, plugin);
    WithoutImportNothing(b, plugin);
    WithoutImportConcat(a + [ImportLine(plugin)], b, plugin);
    WithoutImportConcat(a, [ImportLine(plugin)], plugin);
    assert WithoutImport([ImportLine(plugin)], plugin) == [] && a + [] + b == a + b;
  }

  /**
   Unregistering undoes registering exactly when there was no registration block
   to add to, or the line behind that block was empty.
   */
  lemma UnregisterUndoesRegister(lines: seq<string>, plugin: string)
    requires IsPluginName(plugin) && AllUnrelated(lines, plugin)
    ensures Unregistered(Registered(lines, plugin), plugin) == lines <==>
            RegistrationPlace(lines).None? || BlankBehind(lines)
  {
    hide Contains, TrimSpace, ImportClose, ImportLine, Registration, RegistrationPlace, WithImport, Unregistered;
    assert !MentionsCall(lines, plugin) by {
      assert forall i | 0 <= i < |lines| :: Unrelated(lines[i], plugin);
    }
    var imported := WithImport(lines, plugin);
    UnrelatedReacts(lines, plugin);
    WithImportReacts(lines, plugin);
    ImportKeepsPlace(lines, plugin);
    if RegistrationPlace(imported).None? {
      UnregisterPasses(imported, [], plugin);
      assert imported + [] == imported;
      UnregisterNothing(plugin);
      assert WithoutImport(imported, plugin) + [] == lines;
    } else {
      var at := RegistrationPlace(imported).value;
      assert imported[..at] + imported[at..] == imported;
      UnregisterAt(imported[..at], imported[at..], plugin);
      assert at < |imported| ==> imported[at..][0] == imported[at];
    }
  }

  lemma UnregisterNothing(plugin: string)
    ensures Unregistered([], plugin) == []
  {
  }

  // ----- registering twice -----

  lemma MentionsKept(lines: seq<string>, at: nat, new_: seq<string>, plugin: string)
    requires at <= |lines|
    ensures MentionsImport(lines, plugin) ==> MentionsImport(Insert(lines, at, new_), plugin)
    ensures MentionsCall(lines, plugin) ==> MentionsCall(Insert(lines, at, new_), plugin)
  {
    hide Contains, ImportPath, NewCall;
    var after := Insert(lines, at, new_);
    forall i | 0 <= i < |lines|
      ensures lines[i] in after
    {
      assert lines[i] == if i < at then after[i] else after[i + |new_|];
    }
  }

  lemma WithImportTwice(lines: seq<string>, plugin: string)
    ensures WithImport(WithImport(lines, plugin), plugin) == WithImport(lines, plugin)
    ensures MentionsCall(lines, plugin) ==> MentionsCall(WithImport(lines, plugin), plugin)
  {
    hide Contains, ImportPath, NewCall, ImportLine, ImportClose;
    if WithImport(lines, plugin) != lines {
      var at := ImportClose(lines, false).value;
      var after := WithImport(lines, plugin);
      MentionsKept(lines, at, [ImportLine(plugin)], plugin);
      ImportLineNamesPlugin(plugin);
      assert after[at] == ImportLine(plugin);
    }
  }

  predicate IsNoImportBlock(lines: seq<string>) {
    forall i | 0 <= i < |lines| :: !Contains(lines[i], IMPORT_OPEN) && TrimSpace(lines[i]) != ")"
  }

  lemma {:induction false} ImportCloseSkips(new_: seq<string>, b: seq<string>, inBlock: bool)
    requires IsNoImportBlock(new_)
    ensures ImportClose(new_ + b, inBlock) == Behind(|new_|, ImportClose(b, inBlock))
  {
    hide Contains, TrimSpace;
    if new_ == [] {
      assert new_ + b == b;
    } else {
      assert (new_ + b)[0] == new_[0] && (new_ + b)[1..] == new_[1..] + b;
      ImportCloseSkips(new_[1..], b, inBlock);
    }
  }

  lemma {:induction false} ImportCloseBehind(a: seq<string>, b: seq<string>, c: seq<string>, k: nat, inBlock: bool)
    requires forall f :: ImportClose(c, f) == Behind(k, ImportClose(b, f))
    ensures var close := ImportClose(a + b, inBlock);
            ImportClose(a + c, inBlock) == if close.Some? && |a| <= close.value then Some(close.value + k) else close
  {
    hide Contains, TrimSpace, ImportClose;
    if a == [] {
      assert a + b == b && a + c == c;
    } else {
      FirstOff(a, b);
      FirstOff(a, c);
      ImportCloseFirst(a[0], a[1..] + b, inBlock);
      ImportCloseFirst(a[0], a[1..] + c, inBlock);
      ImportCloseBehind(a[1..], b, c, k, inBlock || Contains(a[0], IMPORT_OPEN));
    }
  }

  lemma FirstOff(a: seq<string>, b: seq<string>)
    requires a != []
    ensures a + b == [a[0]] + (a[1..] + b)
  {
  }

  lemma ImportCloseFirst(line: string, rest: seq<string>, inBlock: bool)
    ensures var inBlock' := inBlock || Contains(line, IMPORT_OPEN);
            ImportClose([line] + rest, inBlock) ==
            if inBlock' && TrimSpace(line) == ")" then Some(0) else Behind(1, ImportClose(rest, inBlock'))
  {
    hide Contains, TrimSpace;
    assert ([line] + rest)[1..] == rest;
  }

  /** Lines that neither open nor close an import block only shift the place where one is closed. */
  lemma ImportCloseShifts(a: seq<string>, new_: seq<string>, b: seq<string>, inBlock: bool)
    requires IsNoImportBlock(new_)
    ensures var close := ImportClose(a + b, inBlock);
            ImportClose(a + new_ + b, inBlock) ==
            if close.Some? && |a| <= close.value then Some(close.value + |new_|) else close
  {
    hide IsNoImportBlock, ImportClose;
    forall f
      ensures ImportClose(new_ + b, f) == Behind(|new_|, ImportClose(b, f))
    {
      ImportCloseSkips(new_, b, f);
    }
    ImportCloseBehind(a, b, new_ + b, |new_|, inBlock);
    assert a + (new_ + b) == a + new_ + b;
  }

  predicate HasPair(s: string, c: char, d: char) {
    exists i | 0 <= i < |s| - 1 :: s[i] == c && s[i + 1] == d
  }

  lemma PairConcat(a: string, b: string, c: char, d: char)
    requires !HasPair(a, c, d) && !HasPair(b, c, d)
    requires a != [] && b != [] && (a[|a| - 1] != c || b[0] != d)
    ensures !HasPair(a + b, c, d)
  {
    forall i | 0 <= i < |a + b| - 1
      ensures !((a + b)[i] == c && (a + b)[i + 1] == d)
    {
      if |a| <= i {
        assert (a + b)[i] == b[i - |a|] && (a + b)[i + 1] == b[i - |a| + 1];
      } else if i + 1 < |a| {
        assert (a + b)[i] == a[i] && (a + b)[i + 1] == a[i + 1];
      }
    }
  }

  lemma NoImportOpen(s: string)
    requires !HasPair(s, ' ', '(')
    ensures !Contains(s, IMPORT_OPEN)
  {
    NoPairNoOccurrence(s, IMPORT_OPEN, 6);
  }

  lemma NotClosing(s: string, i: nat)
    requires i < |s| && !IsSpace(s[i]) && s[i] != ')'
    ensures TrimSpace(s) != ")"
  {
    TrimKeeps(s, i);
  }

  /** No inserted registration line opens or closes an import block. */
  lemma RegistrationIsNoImportBlock(plugin: string)
    requires IsPluginName(plugin)
    ensures IsNoImportBlock([""] + Registration(plugin))
  {
    hide Contains, TrimSpace, IsPluginName;
    NameLacks(plugin, '(');
    assert !HasPair("", ' ', '(');
    NoImportOpen("");
    EmptyTrim();
    CommentLineInert(plugin);
    IfLineInert(plugin);
    LogLineInert(plugin);
    assert !HasPair(Registration(plugin)[3], ' ', '(') && Registration(plugin)[3][1] == '}';
    NoImportOpen(Registration(plugin)[3]);
    NotClosing(Registration(plugin)[3], 1);
  }

  lemma CommentLineInert(plugin: string)
    requires !HasChar(plugin, '(')
    ensures !Contains(Registration(plugin)[0], IMPORT_OPEN) && TrimSpace(Registration(plugin)[0]) != ")"
  {
    hide Contains, TrimSpace;
    var line := Registration(plugin)[0];
    LacksThree("\t// 注册 ", plugin, " 插件", '(');
    assert line == "\t// 注册 " + plugin + " 插件";
    NoImportOpen(line);
    NotClosing(line, 1);
  }

  lemma IfLineInert(plugin: string)
    requires !HasChar(plugin, '(') && plugin != ""
    ensures !Contains(Registration(plugin)[1], IMPORT_OPEN) && TrimSpace(Registration(plugin)[1]) != ")"
  {
    hide Contains, TrimSpace, Registration;
    var line := Registration(plugin)[1];
    IfLineText(plugin);
    assert !HasPair(plugin, ' ', '(');
    PairConcat(IF_HEAD, plugin, ' ', '(');
    PairConcat(IF_HEAD + plugin, IF_TAIL, ' ', '(');
    NoImportOpen(line);
    assert line[1] == IF_HEAD[1] == 'i';
    NotClosing(line, 1);
  }

  lemma LogLineInert(plugin: string)
    requires !HasChar(plugin, '(') && plugin != ""
    ensures !Contains(Registration(plugin)[2], IMPORT_OPEN) && TrimSpace(Registration(plugin)[2]) != ")"
  {
    hide Contains, TrimSpace;
    var line := Registration(plugin)[2];
    var head, tail := "\t\tappLogger.Error(\"注册", "插件失败\", zap.Error(err))";
    assert line == head + plugin + tail;
    assert !HasPair(plugin, ' ', '(');
    PairConcat(head, plugin, ' ', '(');
    PairConcat(head + plugin, tail, ' ', '(');
    NoImportOpen(line);
    assert line[2] == head[2] == 'a';
    NotClosing(line, 2);
  }

  lemma IfLineCalls(plugin: string)
    ensures Contains(Registration(plugin)[1], NewCall(plugin))
  {
    hide Contains;
    var b := "); err != nil {";
    Embedded(IF_HEAD, NewCall(plugin), b);
    IfLineText(plugin);
    assert IF_TAIL == "plugin.New()" + b;
    Associate(IF_HEAD, plugin, "plugin.New()", b);
  }

  /** Registering is idempotent, whatever the source looks like and whatever it already mentions. */
  lemma RegisterTwice(lines: seq<string>, plugin: string)
    requires IsPluginName(plugin)
    ensures Registered(Registered(lines, plugin), plugin) == Registered(lines, plugin)
  {
    hide Contains, ImportPath, NewCall, ImportLine, ImportClose, Registration, RegistrationPlace, IsPluginName,
         TrimSpace;
    WithImportTwice(lines, plugin);
    var imported := WithImport(lines, plugin);
    if !MentionsCall(lines, plugin) && RegistrationPlace(imported).Some? {
      var at := RegistrationPlace(imported).value;
      var done := Insert(imported, at, [""] + Registration(plugin));
      MentionsKept(imported, at, [""] + Registration(plugin), plugin);
      IfLineCalls(plugin);
      assert done[at + 2] == Registration(plugin)[1];
      assert MentionsCall(done, plugin);
      if !MentionsImport(imported, plugin) {
        RegistrationIsNoImportBlock(plugin);
        WithImportMissing(lines, plugin);
        assert imported[..at] + imported[at..] == imported;
        ImportCloseShifts(imported[..at], [""] + Registration(plugin), imported[at..], false);
      }
    }
  }

  lemma WithImportMissing(lines: seq<string>, plugin: string)
    ensures MentionsImport(WithImport(lines, plugin), plugin) ||
            (WithImport(lines, plugin) == lines && ImportClose(lines, false).None?)
  {
    hide Contains, ImportPath, ImportLine, ImportClose;
    if ImportClose(lines, false).Some? && !MentionsImport(lines, plugin) {
      var at := ImportClose(lines, false).value;
      ImportLineNamesPlugin(plugin);
      assert WithImport(lines, plugin)[at] == ImportLine(plugin);
    }
  }
}
