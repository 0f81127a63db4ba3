/** Two backend plugins installed together, and either of them removed (internal/server/upload.go). */
module PluginPairs {
  import opened Common
  import opened SourceText
  import opened BackendPlugin
  import opened BackendPluginUndo
  import opened PluginNeighbours

  function Block(plugin: string): (block: seq<string>)
    ensures |block| == 5
  {
    [""] + Registration(plugin)
  }

  // ----- what one plugin's lines mention of another -----

  lemma ImportMentions(other: string, plugin: string)
    requires IsPluginName(plugin) && IsPluginName(other)
    ensures MentionsImport([ImportLine(other)], plugin) <==> plugin <= other
    ensures !MentionsCall([ImportLine(other)], plugin)
  {
    var line := ImportLine(other);
    ImportGoesByPrefix(plugin, other);
    ImportLineLacks(other, '(');
    assert NewCall(plugin)[|plugin| + 10] == "plugin.New()"[10] == '(';
    assert line[|line| - 1] == '"';
    hide IsPluginName, ImportPath, ImportLine;
    MissingChar(line, NewCall(plugin), |plugin| + 10);
    hide NewCall;
    ContainsChar(line, '"');
    hide Contains;
    assert [line][0] == line;
  }

  lemma BlockMentions(other: string, plugin: string)
    requires IsPluginName(plugin) && IsPluginName(other)
    ensures !MentionsImport(Block(other), plugin)
    ensures MentionsCall(Block(other), plugin) <==> IsSuffix(plugin, other)
  {
    BlockNoImport(other, plugin);
    BlockNoCall(other, plugin);
    CallSeenBySuffix(plugin, other);
    assert Block(other)[2] == Registration(other)[1];
    hide Contains, Registration, ImportPath, NewCall, IsPluginName, Block;
    assert forall i | 0 <= i < 5 :: i != 2 ==> !Contains(Block(other)[i], NewCall(plugin));
  }

  lemma MentionsInsert(lines: seq<string>, at: nat, new_: seq<string>, plugin: string)
    requires at <= |lines|
    ensures MentionsImport(Insert(lines, at, new_), plugin) <==>
            MentionsImport(lines, plugin) || MentionsImport(new_, plugin)
    ensures MentionsCall(Insert(lines, at, new_), plugin) <==>
            MentionsCall(lines, plugin) || MentionsCall(new_, plugin)
  {
    hide Contains, ImportPath, NewCall;
    MentionsKept(lines, at, new_, plugin);
    var after := Insert(lines, at, new_);
    forall i | 0 <= i < |new_|
      ensures new_[i] in after
    {
      assert new_[i] == after[at + i];
    }
    forall line | line in after
      ensures line in lines || line in new_
    {
    }
  }

  /** What registering one plugin adds, another one takes for its own by the two tests on names. */
  lemma RegisteredMentions(lines: seq<string>, other: string, plugin: string)
    requires IsPluginName(plugin) && IsPluginName(other)
    requires AllUnrelated(lines, other) && AllUnrelated(lines, plugin)
    ensures MentionsImport(WithImport(lines, other), plugin) <==> ImportClose(lines, false).Some? && plugin <= other
    ensures MentionsImport(Registered(lines, other), plugin) <==> ImportClose(lines, false).Some? && plugin <= other
    ensures MentionsCall(Registered(lines, other), plugin) <==>
            RegistrationPlace(lines).Some? && IsSuffix(plugin, other)
  {
    hide AllUnrelated, ImportLine, ImportClose, RegistrationPlace, MentionsImport, MentionsCall, Block, IsPluginName,
         IsSuffix, Insert, WithImport, WithRegistration;
    RegisteredPlain(lines, other);
    UnrelatedMentions(lines, plugin);
    ImportMentions(other, plugin);
    BlockMentions(other, plugin);
    ImportKeepsPlace(lines, other);
    if ImportClose(lines, false).Some? {
      MentionsInsert(lines, ImportClose(lines, false).value, [ImportLine(other)], plugin);
    }
    var imported := WithImport(lines, other);
    WithBlock(imported, other);
    if RegistrationPlace(imported).Some? {
      MentionsInsert(imported, RegistrationPlace(imported).value, Block(other), plugin);
    }
  }

  lemma RegisteredSilent(lines: seq<string>, other: string, plugin: string)
    requires IsPluginName(plugin) && IsPluginName(other)
    requires AllUnrelated(lines, other) && AllUnrelated(lines, plugin)
    ensures NoneReacts(Registered(lines, other), plugin) <==>
            && !(ImportClose(lines, false).Some? && plugin <= other)
            && !(RegistrationPlace(lines).Some? && CommentReadsAs(other, plugin))
  {
    hide *;
    NeighbourSurvives(lines, other, plugin);
    UnregisteredExact(Registered(lines, other), plugin);
  }

  /** No line of a registration holds an import path. */
  lemma BlockNoImport(other: string, plugin: string)
    requires IsPluginName(other)
    ensures forall i | 0 <= i < 5 :: !Contains(Block(other)[i], ImportPath(plugin))
  {
    var r := Registration(other);
    NameLacks(other, '/');
    NameLacks(other, '.');
    LacksThree("\t// 注册 ", other, " 插件", '.');
    assert r[0] == "\t// 注册 " + other + " 插件";
    IfLineText(other);
    LiteralsLack();
    LacksThree(IF_HEAD, other, IF_TAIL, '/');
    LogLineLacks(other, '/');
    assert ImportPath(plugin)[6] == '.' && ImportPath(plugin)[10] == '/';
    hide IsPluginName, ImportPath, Registration;
    MissingChar(r[0], ImportPath(plugin), 6);
    MissingChar(r[1], ImportPath(plugin), 10);
    MissingChar(r[2], ImportPath(plugin), 10);
    LastLine(other);
    MissingChar(r[3], ImportPath(plugin), 10);
    MissingChar("", ImportPath(plugin), 10);
  }

  lemma LastLine(other: string)
    ensures Registration(other)[3] == "\t}"
    ensures !HasChar(Registration(other)[3], '/') && !HasChar(Registration(other)[3], '.') && !HasChar("", '/')
    ensures !HasChar("", '.')
  {
  }

  /** Only the call line of a registration can hold another plugin's call. */
  lemma BlockNoCall(other: string, plugin: string)
    requires IsPluginName(plugin) && IsPluginName(other)
    ensures forall i | 0 <= i < 5 :: i != 2 ==> !Contains(Block(other)[i], NewCall(plugin))
  {
    var r := Registration(other);
    var k := |plugin| + 6;
    assert NewCall(plugin)[k] == "plugin.New()"[6] == '.' && NewCall(plugin)[k + 1] == "plugin.New()"[7] == 'N';
    NameLacks(other, '.');
    LacksThree("\t// 注册 ", other, " 插件", '.');
    assert r[0] == "\t// 注册 " + other + " 插件";
    hide Registration, IsPluginName;
    MissingChar(r[0], NewCall(plugin), k);
    LogNoCall(other);
    NoPairNoOccurrence(r[2], NewCall(plugin), k);
    LastLine(other);
    MissingChar(r[3], NewCall(plugin), k);
    MissingChar("", NewCall(plugin), k);
  }

  lemma LogNoCall(other: string)
    requires other != "" && !HasChar(other, '.')
    ensures !HasPair(Registration(other)[2], '.', 'N')
  {
    var head, tail := "\t\tappLogger.Error(\"注册", "插件失败\", zap.Error(err))";
    NoPairIn(other, '.', 'N');
    LastLacks(other, '.');
    assert !HasPair(head, '.', 'N') && !HasPair(tail, '.', 'N');
    hide HasChar, HasPair;
    PairConcat(head, other, '.', 'N');
    PairConcat(head + other, tail, '.', 'N');
    assert Registration(other)[2] == head + other + tail;
  }

  // ----- where things go -----

  /** Behind an inserted block is the place for the next one. */
  lemma PlaceBehindBlock(lines: seq<string>, plugin: string)
    requires IsPluginName(plugin) && RegistrationPlace(lines).Some?
    ensures RegistrationPlace(WithRegistration(lines, plugin)) == Some(RegistrationPlace(lines).value + 5)
  {
    var at := RegistrationPlace(lines).value;
    var front, behind := lines[..at], lines[at..];
    BlockCalls(plugin);
    Braces(plugin);
    hide Contains, Registration, BlockClose, IsPluginName, LastCall;
    assert lines == front + behind;
    LastCallAround(front, Block(plugin), behind);
    BlockTail(front, plugin, behind);
    BalancedBlock([Registration(plugin)[1], Registration(plugin)[2], Registration(plugin)[3]] + behind);
  }

  lemma LastCallAround(front: seq<string>, block: seq<string>, behind: seq<string>)
    requires LastCall(block) == Some(2)
    ensures LastCall(front + behind).Some? && LastCall(front + behind).value < |front| ==>
              LastCall(front + (block + behind)) == Some(|front| + 2)
  {
    hide LastCall;
    LastCallConcat(front, behind);
    LastCallConcat(block, behind);
    LastCallConcat(front, block + behind);
  }

  lemma BlockTail(front: seq<string>, plugin: string, behind: seq<string>)
    ensures var r, all := Registration(plugin), front + (Block(plugin) + behind);
            front + Block(plugin) + behind == all && |front| + 2 <= |all|
            && all[|front| + 2..] == [r[1], r[2], r[3]] + behind
  {
    hide Registration;
    assert Block(plugin)[2..] == [Registration(plugin)[1], Registration(plugin)[2], Registration(plugin)[3]];
    assert (front + (Block(plugin) + behind))[|front| + 2..] == Block(plugin)[2..] + behind;
  }

  lemma BlockCalls(plugin: string)
    requires IsPluginName(plugin)
    ensures LastCall(Block(plugin)) == Some(2)
  {
    var block := Block(plugin);
    IfLineRegisters(plugin);
    NoRegisterBehind(plugin);
    hide Contains, Registration, IsPluginName;
    assert block[..4][3] == block[3] && block[..4][..3] == block[..3] && block[..3][2] == block[2];
    assert LastCall(block[..3]) == Some(2) && LastCall(block[..4]) == Some(2);
  }

  lemma IfLineRegisters(plugin: string)
    ensures Contains(Registration(plugin)[1], REGISTER_CALL)
  {
    hide Contains, Registration;
    IfLineText(plugin);
    IfHeadCalls();
    Embedded("\tif err := ", REGISTER_CALL, plugin + IF_TAIL);
    assert IF_HEAD + plugin + IF_TAIL == IF_HEAD + (plugin + IF_TAIL);
  }

  lemma IfHeadCalls()
    ensures IF_HEAD == "\tif err := " + REGISTER_CALL
  {
  }

  lemma NoRegisterBehind(plugin: string)
    requires IsPluginName(plugin)
    ensures !Contains(Registration(plugin)[2], REGISTER_CALL) && !Contains(Registration(plugin)[3], REGISTER_CALL)
  {
    NameLacks(plugin, '.');
    LogPairs(plugin);
    LastLine(plugin);
    assert REGISTER_CALL[9] == '.' && REGISTER_CALL[10] == 'R';
    hide Contains, Registration, IsPluginName;
    NoPairNoOccurrence(Registration(plugin)[2], REGISTER_CALL, 9);
    MissingChar(Registration(plugin)[3], REGISTER_CALL, 9);
  }

  lemma BalancedBlock(rest: seq<string>)
    requires 3 <= |rest| && Contains(rest[0], "{") && !Contains(rest[0], "}")
    requires !Contains(rest[1], "{") && !Contains(rest[1], "}") && !Contains(rest[2], "{") && Contains(rest[2], "}")
    ensures BlockClose(rest, 0, false) == Some(2)
  {
    hide Contains;
    assert rest[1..][0] == rest[1] && rest[1..][1..][0] == rest[2];
    assert BlockClose(rest[1..][1..], 1, true) == Some(0);
    assert BlockClose(rest[1..], 1, true) == Some(1);
  }

  /** In sources without a mention of the plugin registering is just the two insertions. */
  lemma RegisteredPlain(lines: seq<string>, plugin: string)
    requires AllUnrelated(lines, plugin)
    ensures Registered(lines, plugin) == WithRegistration(WithImport(lines, plugin), plugin)
    ensures WithImport(lines, plugin) ==
            if ImportClose(lines, false).None? then lines
            else Insert(lines, ImportClose(lines, false).value, [ImportLine(plugin)])
  {
    UnrelatedMentions(lines, plugin);
  }

  /** Where the registration goes once the import line is there. */
  lemma PlaceBesideImport(lines: seq<string>, at: nat, plugin: string)
    requires IsPluginName(plugin) && at <= |lines|
    ensures var place := RegistrationPlace(lines);
            RegistrationPlace(Insert(lines, at, [ImportLine(plugin)])) ==
            if place.Some? && at < place.value then Some(place.value + 1) else place
  {
    ImportLineInert(plugin);
    hide Contains, RegistrationPlace, ImportLine, IsPluginName;
    PlaceShifts(lines[..at], ImportLine(plugin), lines[at..]);
    assert lines[..at] + lines[at..] == lines;
    assert Insert(lines, at, [ImportLine(plugin)]) == lines[..at] + ([ImportLine(plugin)] + lines[at..]);
  }

  /** It does not matter whether a plugin's import or another one's block is added first. */
  lemma ImportAndBlockCommute(lines: seq<string>, other: string, plugin: string)
    requires IsPluginName(plugin) && IsPluginName(other) && !MentionsImport(lines, plugin)
    ensures WithImport(WithRegistration(lines, other), plugin) == WithRegistration(WithImport(lines, plugin), other)
  {
    hide Registration, ImportLine, ImportClose, RegistrationPlace, IsPluginName, MentionsImport, MentionsCall,
         WithImport, Insert, Block;
    ImportedPlain(lines, plugin);
    WithBlock(lines, other);
    if RegistrationPlace(lines).Some? {
      var b := RegistrationPlace(lines).value;
      BlockMentions(other, plugin);
      MentionsInsert(lines, b, Block(other), plugin);
      ImportedPlain(Insert(lines, b, Block(other)), plugin);
      CloseBesideBlock(lines, b, other);
      if ImportClose(lines, false).Some? {
        var i := ImportClose(lines, false).value;
        PlaceBesideImport(lines, i, plugin);
        WithBlock(Insert(lines, i, [ImportLine(plugin)]), other);
        InsertionsCommute(lines, i, [ImportLine(plugin)], b, Block(other));
      }
    } else if ImportClose(lines, false).Some? {
      var i := ImportClose(lines, false).value;
      PlaceBesideImport(lines, i, plugin);
      WithBlock(Insert(lines, i, [ImportLine(plugin)]), other);
    }
  }

  lemma WithBlock(lines: seq<string>, plugin: string)
    ensures WithRegistration(lines, plugin) ==
            if RegistrationPlace(lines).None? then lines
            else Insert(lines, RegistrationPlace(lines).value, Block(plugin))
  {
  }

  lemma CloseBesideBlock(lines: seq<string>, b: nat, plugin: string)
    requires IsPluginName(plugin) && b <= |lines|
    ensures var close := ImportClose(lines, false);
            ImportClose(Insert(lines, b, Block(plugin)), false) ==
            if close.Some? && b <= close.value then Some(close.value + 5) else close
  {
    hide ImportClose, IsPluginName, Registration, IsNoImportBlock, Insert, TrimSpace, Block, Contains;
    RegistrationIsNoImportBlock(plugin);
    BlockParts(plugin);
    InsertParts(lines, b, Block(plugin));
    var new_ := Block(plugin);
    var a, c := lines[..b], lines[b..];
    CloseBeside(lines, Insert(lines, b, new_), a, new_, c);
  }

  lemma CloseBeside(lines: seq<string>, after: seq<string>, a: seq<string>, new_: seq<string>, b: seq<string>)
    requires IsNoImportBlock(new_) && lines == a + b && after == a + new_ + b
    ensures var close := ImportClose(lines, false);
            ImportClose(after, false) == if close.Some? && |a| <= close.value then Some(close.value + |new_|) else close
  {
    hide ImportClose, IsNoImportBlock;
    ImportCloseShifts(a, new_, b, false);
  }

  lemma BlockParts(plugin: string)
    ensures Block(plugin) == [""] + Registration(plugin)
  {
  }

  lemma InsertParts(lines: seq<string>, at: nat, new_: seq<string>)
    requires at <= |lines|
    ensures Insert(lines, at, new_) == lines[..at] + new_ + lines[at..]
    ensures lines[..at] + lines[at..] == lines
  {
  }

  lemma InsertionsCommute(lines: seq<string>, i: nat, x: seq<string>, b: nat, y: seq<string>)
    requires i <= |lines| && b <= |lines| && |x| == 1
    ensures Insert(Insert(lines, b, y), if b <= i then i + |y| else i, x) ==
            Insert(Insert(lines, i, x), if i < b then b + 1 else b, y)
  {
    if i < b {
      InsertTwice(lines[..i], x, lines[i..b], y, lines[b..]);
      assert lines == lines[..i] + lines[i..b] + lines[b..];
    } else {
      InsertTwice(lines[..b], y, lines[b..i], x, lines[i..]);
      assert lines == lines[..b] + lines[b..i] + lines[i..];
    }
  }

  /** Two pieces inserted between three others, in either order. */
  lemma InsertTwice(a: seq<string>, x: seq<string>, m: seq<string>, y: seq<string>, c: seq<string>)
    ensures Insert(Insert(a + m + c, |a|, x), |a| + |x| + |m|, y) == a + x + m + y + c
    ensures Insert(Insert(a + m + c, |a| + |m|, y), |a|, x) == a + x + m + y + c
  {
    assert Insert(a + m + c, |a|, x) == (a + x + m) + c;
    assert Insert(a + m + c, |a| + |m|, y) == a + (m + y + c);
    assert a + x + (m + y + c) == a + x + m + y + c;
  }

  // ----- two plugins -----

  /** Neither plugin's import is taken for the other's, where there is one. */
  predicate ImportsApart(lines: seq<string>, first: string, second: string) {
    ImportClose(lines, false).Some? ==> !(first <= second) && !(second <= first)
  }

  /** The second plugin is called though the first is, and its block is not read as the first one's. */
  predicate BlocksApart(lines: seq<string>, first: string, second: string) {
    RegistrationPlace(lines).Some? ==> !IsSuffix(second, first) && !CommentReadsAs(second, first)
  }

  lemma BothRegistered(lines: seq<string>, first: string, second: string)
    requires IsPluginName(first) && IsPluginName(second)
    requires ImportsApart(lines, first, second) && BlocksApart(lines, first, second)
    requires AllUnrelated(lines, first) && AllUnrelated(lines, second)
    ensures var both := WithImport(WithImport(lines, first), second);
            Registered(Registered(lines, first), second) == WithRegistration(WithRegistration(both, first), second)
  {
    hide AllUnrelated, WithImport, WithRegistration, IsPluginName, ImportClose, RegistrationPlace, MentionsImport,
         MentionsCall, IsSuffix, CommentReadsAs;
    RegisteredMentions(lines, first, second);
    UnrelatedMentions(lines, first);
    ImportAndBlockCommute(WithImport(lines, first), first, second);
  }

  lemma ImportLineIsNoBlock(plugin: string)
    requires IsPluginName(plugin)
    ensures !Contains(ImportLine(plugin), IMPORT_OPEN) && TrimSpace(ImportLine(plugin)) != ")"
  {
    var line := ImportLine(plugin);
    ImportLineLacks(plugin, '(');
    assert line[|line| - 1] == '"';
    hide IsPluginName, ImportLine, TrimSpace;
    MissingChar(line, IMPORT_OPEN, 7);
    NotClosing(line, |line| - 1);
  }

  /** Both imports stand where the first one was put, and the place for registrations moves along. */
  lemma BothImported(lines: seq<string>, first: string, second: string)
    requires IsPluginName(first) && IsPluginName(second) && ImportsApart(lines, first, second)
    requires AllUnrelated(lines, first) && AllUnrelated(lines, second)
    ensures var both, one := WithImport(WithImport(lines, first), second), WithImport(lines, second);
            if ImportClose(lines, false).None? then both == one == lines
            else
              var at := ImportClose(lines, false).value;
              var place := RegistrationPlace(one);
              && at <= |one| && both == Insert(one, at, [ImportLine(first)])
              && one == Insert(lines, at, [ImportLine(second)])
              && RegistrationPlace(both) == if place.Some? && at < place.value then Some(place.value + 1) else place
  {
    hide AllUnrelated, IsPluginName, ImportLine, ImportClose, RegistrationPlace, MentionsImport, MentionsCall,
         WithImport, Registered, Insert;
    RegisteredMentions(lines, first, second);
    UnrelatedMentions(lines, first);
    UnrelatedMentions(lines, second);
    ImportedPlain(lines, first);
    ImportedPlain(lines, second);
    ImportedPlain(WithImport(lines, first), second);
    if ImportClose(lines, false).Some? {
      var at := ImportClose(lines, false).value;
      CloseBehindImport(lines, first);
      InsertLength(lines, at, ImportLine(second));
      TwoImports(lines, at, ImportLine(first), ImportLine(second));
      PlaceBesideImport(WithImport(lines, second), at, first);
    }
  }

  lemma InsertLength(lines: seq<string>, at: nat, x: string)
    requires at <= |lines|
    ensures |Insert(lines, at, [x])| == |lines| + 1
  {
  }

  lemma ImportedPlain(lines: seq<string>, plugin: string)
    requires !MentionsImport(lines, plugin)
    ensures WithImport(lines, plugin) ==
            if ImportClose(lines, false).None? then lines
            else Insert(lines, ImportClose(lines, false).value, [ImportLine(plugin)])
  {
  }

  lemma CloseBehindImport(lines: seq<string>, plugin: string)
    requires IsPluginName(plugin) && ImportClose(lines, false).Some?
    ensures var at := ImportClose(lines, false).value;
            ImportClose(Insert(lines, at, [ImportLine(plugin)]), false) == Some(at + 1)
  {
    hide ImportClose, ImportLine, Contains, TrimSpace;
    var at := ImportClose(lines, false).value;
    assert lines == lines[..at] + lines[at..];
    ImportLineIsNoBlock(plugin);
    ImportCloseShifts(lines[..at], [ImportLine(plugin)], lines[at..], false);
  }

  lemma TwoImports(lines: seq<string>, at: nat, x: string, y: string)
    requires at <= |lines|
    ensures Insert(Insert(lines, at, [x]), at + 1, [y]) == Insert(Insert(lines, at, [y]), at, [x])
  {
    var a, c := lines[..at], lines[at..];
    assert Insert(lines, at, [x]) == (a + [x]) + c && Insert(lines, at, [y]) == a + ([y] + c);
  }

  /** Taking the import out again, on either side of a cut. */
  lemma CutBesideImport(lines: seq<string>, at: nat, place: nat, plugin: string)
    requires at <= |lines| && place <= |lines| && NoneReacts(lines, plugin)
    ensures var both, cut := Insert(lines, at, [ImportLine(plugin)]), if at < place then place + 1 else place;
            WithoutImport(both[..cut], plugin) == lines[..place] && WithoutImport(both[cut..], plugin) == lines[place..]
  {
    hide NoneReacts, ImportLine, WithoutImport;
    var import_ := [ImportLine(plugin)];
    var both := Insert(lines, at, import_);
    JustImport(plugin);
    assert lines == lines[..place] + lines[place..];
    NoneReactsConcat(lines[..place], lines[place..], plugin);
    WithoutImportNothing(lines[..place], plugin);
    WithoutImportNothing(lines[place..], plugin);
    if at < place {
      var a, m := lines[..at], lines[at..place];
      assert lines[..place] == a + m && both[..place + 1] == (a + import_) + m && both[place + 1..] == lines[place..];
      WithoutImportConcat(a + import_, m, plugin);
      WithoutImportConcat(a, import_, plugin);
      WithoutImportConcat(a, m, plugin);
      assert WithoutImport(a, plugin) + [] == WithoutImport(a, plugin);
    } else {
      var m, c := lines[place..at], lines[at..];
      assert lines[place..] == m + c && both[place..] == (m + import_) + c && both[..place] == lines[..place];
      WithoutImportConcat(m + import_, c, plugin);
      WithoutImportConcat(m, import_, plugin);
      WithoutImportConcat(m, c, plugin);
      assert WithoutImport(m, plugin) + [] == WithoutImport(m, plugin);
    }
  }

  lemma JustImport(plugin: string)
    ensures WithoutImport([ImportLine(plugin)], plugin) == []
  {
    hide ImportLine;
    var one := [ImportLine(plugin)];
    assert one[1..] == [];
  }

  /** What is left of the first plugin's block and of one that follows it directly. */
  lemma BlockBeforeBlockGoes(front: seq<string>, behind: seq<string>, first: string, second: string)
    requires IsPluginName(first) && IsPluginName(second) && NoneReacts(Block(second), first)
    requires OnlyImportReacts(front + (Block(second) + behind), first)
    ensures Unregistered(front + Block(first) + (Block(second) + behind), first) ==
            WithoutImport(front, first) + Block(second) + WithoutImport(behind, first)
  {
    hide Registration, Unregistered, NoneReacts, OnlyImportReacts, ImportLine, WithoutImport, IsPluginName, SkipBlank;
    UnregisterLeaves(front, Block(second) + behind, first);
    BlankOfBlock(second, behind);
    WithoutImportConcat(Registration(second), behind, first);
    NoneReactsConcat([""], Registration(second), first);
    WithoutImportNothing(Registration(second), first);
    Regroup5(WithoutImport(front, first), Registration(second), WithoutImport(behind, first));
  }

  lemma BlankOfBlock(plugin: string, behind: seq<string>)
    ensures SkipBlank(Block(plugin) + behind) == Registration(plugin) + behind
  {
    hide Registration;
    EmptyTrim();
    var rest := Block(plugin) + behind;
    assert rest[0] == "" && rest[1..] == Registration(plugin) + behind;
  }

  lemma Regroup5(a: seq<string>, r: seq<string>, b: seq<string>)
    ensures a + [""] + (r + b) == a + ([""] + r) + b
  {
  }

  lemma ImportOrSilent(lines: seq<string>, at: nat, cut: nat, new_: seq<string>, plugin: string)
    requires at <= |lines| && NoneReacts(lines, plugin) && NoneReacts(new_, plugin) && cut <= |lines| + 1
    ensures var both := Insert(lines, at, [ImportLine(plugin)]);
            OnlyImportReacts(both[..cut] + (new_ + both[cut..]), plugin) && OnlyImportReacts(both, plugin)
  {
    hide Reacts, ImportLine;
    var both := Insert(lines, at, [ImportLine(plugin)]);
    forall i | 0 <= i < |both|
      ensures !Reacts(both[i], plugin) || both[i] == ImportLine(plugin)
    {
      assert i < at ==> both[i] == lines[i];
      assert at < i ==> both[i] == lines[i - 1];
    }
    var all := both[..cut] + (new_ + both[cut..]);
    forall i | 0 <= i < |all|
      ensures !Reacts(all[i], plugin) || all[i] == ImportLine(plugin)
    {
      if i < cut {
        assert all[i] == both[i];
      } else if i < cut + |new_| {
        assert all[i] == new_[i - cut];
      } else {
        assert all[i] == both[i - |new_|];
      }
    }
  }

  lemma AllSilent(lines: seq<string>, cut: nat, new_: seq<string>, plugin: string)
    requires NoneReacts(lines, plugin) && NoneReacts(new_, plugin) && cut <= |lines|
    ensures OnlyImportReacts(lines[..cut] + (new_ + lines[cut..]), plugin) && OnlyImportReacts(lines, plugin)
  {
    hide Reacts, ImportLine;
    assert lines[..cut] + lines[cut..] == lines;
    assert lines[..cut] + (new_ + lines[cut..]) == lines[..cut] + new_ + lines[cut..];
    NoneReactsConcat(lines[..cut], lines[cut..], plugin);
    InsertReacts(lines[..cut], new_, lines[cut..], plugin);
  }

  /** Of both insertions the first plugin's go and the second one's stay. */
  lemma FirstGoes(both: seq<string>, one: seq<string>, cut: nat, place: nat, first: string, second: string)
    requires IsPluginName(first) && IsPluginName(second) && NoneReacts(Block(second), first)
    requires RegistrationPlace(both) == Some(cut) && RegistrationPlace(one) == Some(place)
    requires WithoutImport(both[..cut], first) == one[..place] && WithoutImport(both[cut..], first) == one[place..]
    requires OnlyImportReacts(both[..cut] + (Block(second) + both[cut..]), first)
    ensures Unregistered(WithRegistration(WithRegistration(both, first), second), first) ==
            WithRegistration(one, second)
  {
    hide Registration, RegistrationPlace, Unregistered, OnlyImportReacts, WithoutImport, NoneReacts, IsPluginName,
         Insert;
    PlaceBehindBlock(both, first);
    BlockBeforeBlockGoes(both[..cut], both[cut..], first, second);
    TwoBlocks(both, cut, first, second);
    OneBlock(one, place, second);
  }

  lemma OneBlock(lines: seq<string>, at: nat, plugin: string)
    requires at <= |lines|
    ensures Insert(lines, at, Block(plugin)) == lines[..at] + Block(plugin) + lines[at..]
  {
    hide Registration;
  }

  lemma TwoBlocks(lines: seq<string>, cut: nat, first: string, second: string)
    requires cut <= |lines|
    ensures var after := Insert(lines, cut, Block(first));
            cut + 5 <= |after|
            && Insert(after, cut + 5, Block(second)) ==
               lines[..cut] + Block(first) + (Block(second) + lines[cut..])
  {
    hide Registration;
    var after := Insert(lines, cut, Block(first));
    assert after[..cut + 5] == lines[..cut] + Block(first) && after[cut + 5..] == lines[cut..];
  }

  /** If the names are apart, the first plugin can go as if it had never been there. */
  lemma FirstGoesAlone(lines: seq<string>, first: string, second: string)
    requires IsPluginName(first) && IsPluginName(second)
    requires ImportsApart(lines, first, second) && BlocksApart(lines, first, second)
    requires AllUnrelated(lines, first) && AllUnrelated(lines, second)
    ensures Unregistered(Registered(Registered(lines, first), second), first) == Registered(lines, second)
  {
    hide AllUnrelated, NoneReacts, OnlyImportReacts, Registered, WithImport, IsPluginName, ImportLine, ImportClose,
         RegistrationPlace, Unregistered, Block, WithoutImport, WithRegistration, IsSuffix, CommentReadsAs,
         MentionsImport, MentionsCall;
    BothRegistered(lines, first, second);
    BothImported(lines, first, second);
    RegisteredPlain(lines, second);
    UnrelatedMentions(lines, second);
    UnrelatedReacts(lines, first);
    ImportedReacts(lines, second, first);
    ImportKeepsPlace(lines, second);
    BlockIsSilent(second, first);
    var both, one := WithImport(WithImport(lines, first), second), WithImport(lines, second);
    if ImportClose(lines, false).None? {
      WithoutImportNothing(one, first);
      Removal(both, one, first, second);
    } else {
      var at := ImportClose(lines, false).value;
      ImportRemoval(both, one, at, first, second);
    }
  }

  lemma BlockIsSilent(other: string, plugin: string)
    requires IsPluginName(plugin) && IsPluginName(other)
    ensures NoneReacts(Block(other), plugin) <==> !CommentReadsAs(other, plugin)
  {
    hide NoneReacts, Registration, CommentReadsAs, IsPluginName;
    BlockReacts(other, plugin);
  }

  lemma Removal(both: seq<string>, one: seq<string>, first: string, second: string)
    requires IsPluginName(first) && IsPluginName(second)
    requires both == one && NoneReacts(one, first)
    requires RegistrationPlace(one).Some? ==> NoneReacts(Block(second), first)
    ensures Unregistered(WithRegistration(WithRegistration(both, first), second), first) ==
            WithRegistration(one, second)
  {
    hide NoneReacts, OnlyImportReacts, IsPluginName, ImportLine, RegistrationPlace, Unregistered, Block, WithoutImport,
         Registration;
    if RegistrationPlace(one).Some? {
      var place := RegistrationPlace(one).value;
      assert one == one[..place] + one[place..];
      NoneReactsConcat(one[..place], one[place..], first);
      WithoutImportNothing(one[..place], first);
      WithoutImportNothing(one[place..], first);
      AllSilent(one, place, Block(second), first);
      FirstGoes(both, one, place, place, first, second);
    } else {
      NothingGoes(one, first);
    }
  }

  lemma OnlyImport(both: seq<string>, first: string)
    requires OnlyImportReacts(both, first)
    ensures Unregistered(both, first) == WithoutImport(both, first)
  {
    hide OnlyImportReacts, Unregistered, WithoutImport;
    UnregisterPasses(both, [], first);
    UnregisterNothing(first);
    assert both + [] == both && WithoutImport(both, first) + [] == WithoutImport(both, first);
  }

  lemma ImportRemoval(both: seq<string>, one: seq<string>, at: nat, first: string, second: string)
    requires IsPluginName(first) && IsPluginName(second)
    requires at <= |one| && both == Insert(one, at, [ImportLine(first)])
    requires NoneReacts(one, first)
    requires var place := RegistrationPlace(one);
             && RegistrationPlace(both) == (if place.Some? && at < place.value then Some(place.value + 1) else place)
             && (place.Some? ==> NoneReacts(Block(second), first))
    ensures Unregistered(WithRegistration(WithRegistration(both, first), second), first) ==
            WithRegistration(one, second)
  {
    hide NoneReacts, OnlyImportReacts, IsPluginName, ImportLine, RegistrationPlace, Unregistered, Block, WithoutImport,
         Registration;
    if RegistrationPlace(one).Some? {
      var place := RegistrationPlace(one).value;
      var cut := RegistrationPlace(both).value;
      CutBesideImport(one, at, place, first);
      ImportOrSilent(one, at, cut, Block(second), first);
      FirstGoes(both, one, cut, place, first, second);
    } else {
      EmptyIsSilent(first);
      ImportOrSilent(one, at, 0, [], first);
      OnlyImport(both, first);
      CutBesideImport(one, at, 0, first);
      assert both[0..] == both && one[0..] == one;
    }
  }

  lemma EmptyIsSilent(plugin: string)
    ensures NoneReacts([], plugin)
  {
  }

  // ----- why those conditions are needed -----

  lemma {:induction false} UnregisteredHas(lines: seq<string>, plugin: string, line: string)
    requires line in Unregistered(lines, plugin)
    ensures line in lines && !Reacts(line, plugin)
    decreases |lines|
  {
    hide IsImportOf, StartsRegistration, BlockLength;
    if IsImportOf(lines[0], plugin) {
      UnregisteredHas(lines[1..], plugin, line);
    } else if StartsRegistration(lines[0], plugin) {
      UnregisteredHas(From(lines, BlockLength(lines)), plugin, line);
    } else if line != lines[0] {
      UnregisteredHas(lines[1..], plugin, line);
    }
  }

  lemma ImportedHas(lines: seq<string>, plugin: string, line: string)
    ensures line in WithImport(lines, plugin) <==>
            line in lines
            || (!MentionsImport(lines, plugin) && ImportClose(lines, false).Some? && line == ImportLine(plugin))
  {
    hide ImportLine, ImportClose, MentionsImport, Insert;
    if ImportClose(lines, false).Some? {
      InsertHas(lines, ImportClose(lines, false).value, [ImportLine(plugin)], line);
    }
  }

  /** The lines of a source after registering. */
  lemma RegisteredHas(lines: seq<string>, plugin: string, line: string)
    requires IsPluginName(plugin)
    ensures line in Registered(lines, plugin) <==>
            || line in lines
            || (!MentionsImport(lines, plugin) && ImportClose(lines, false).Some? && line == ImportLine(plugin))
            || (!MentionsCall(lines, plugin) && RegistrationPlace(lines).Some? && line in Block(plugin))
  {
    hide ImportLine, ImportClose, RegistrationPlace, MentionsImport, MentionsCall, Insert, Block, WithImport,
         IsPluginName, WithRegistration;
    ImportedHas(lines, plugin, line);
    ImportKeepsPlace(lines, plugin);
    var imported := WithImport(lines, plugin);
    WithBlock(imported, plugin);
    if RegistrationPlace(imported).Some? {
      InsertHas(imported, RegistrationPlace(imported).value, Block(plugin), line);
    }
  }

  lemma BothHave(lines: seq<string>, first: string, second: string, line: string)
    requires IsPluginName(first) && IsPluginName(second)
    requires AllUnrelated(lines, first) && AllUnrelated(lines, second)
    requires line in Unregistered(Registered(Registered(lines, first), second), first) && line !in lines
    ensures !Reacts(line, first)
    ensures || line in Block(first)
            || (!(ImportClose(lines, false).Some? && second <= first) && line == ImportLine(second))
            || (!(RegistrationPlace(lines).Some? && IsSuffix(second, first)) && line in Block(second))
  {
    hide AllUnrelated, ImportLine, ImportClose, RegistrationPlace, MentionsImport, MentionsCall, Block, IsPluginName,
         IsSuffix, Registered, Unregistered, Reacts;
    UnregisteredHas(Registered(Registered(lines, first), second), first, line);
    ImportOfItself(first);
    RegisteredHas(lines, first, line);
    RegisteredHas(Registered(lines, first), second, line);
    RegisteredMentions(lines, first, second);
  }

  lemma ImportOfItself(plugin: string)
    ensures Reacts(ImportLine(plugin), plugin)
  {
    hide IsImportOf, ImportLine;
    ImportLineNamesPlugin(plugin);
  }

  lemma CallOfItself(plugin: string)
    ensures Reacts(Registration(plugin)[1], plugin)
  {
    var text := IfText(plugin) + "; err != nil {";
    hide Contains, TrimSpace, IfText;
    IfTextDot(plugin);
    Embedded("", IfText(plugin), "; err != nil {");
    assert "" + IfText(plugin) + "; err != nil {" == text;
    assert text[|text| - 1] == '{' && text[0] == IfText(plugin)[0] == IF_TEXT[0] == 'i';
    TrimOneTab(text);
    assert "\t" + text == Registration(plugin)[1];
  }

  /** An import that is not added behind the first plugin's is missing when that one goes. */
  lemma ImportMissing(lines: seq<string>, first: string, second: string)
    requires IsPluginName(first) && IsPluginName(second)
    requires AllUnrelated(lines, first) && AllUnrelated(lines, second)
    requires ImportClose(lines, false).Some? && second <= first
    ensures ImportLine(second) in Registered(lines, second)
    ensures ImportLine(second) !in Unregistered(Registered(Registered(lines, first), second), first)
  {
    hide AllUnrelated, ImportLine, ImportClose, RegistrationPlace, MentionsImport, MentionsCall, Block, IsPluginName,
         IsSuffix, Registered, Unregistered, Reacts;
    var line := ImportLine(second);
    UnrelatedMentions(lines, second);
    RegisteredHas(lines, second, line);
    ImportMentions(second, second);
    BlockMentions(first, second);
    BlockMentions(second, second);
    NotAmong(line, lines, second);
    NotAmong(line, Block(first), second);
    NotAmong(line, Block(second), second);
    if line in Unregistered(Registered(Registered(lines, first), second), first) {
      BothHave(lines, first, second, line);
    }
  }

  lemma NotAmong(line: string, lines: seq<string>, plugin: string)
    ensures line in lines && MentionsImport([line], plugin) ==> MentionsImport(lines, plugin)
    ensures line in lines && MentionsCall([line], plugin) ==> MentionsCall(lines, plugin)
  {
    hide Contains, ImportPath, NewCall;
    assert MentionsImport([line], plugin) ==> Contains([line][0], ImportPath(plugin));
    assert MentionsCall([line], plugin) ==> Contains([line][0], NewCall(plugin));
  }

  /** A call that is not added behind the first plugin's is missing when that one goes. */
  lemma CallMissing(lines: seq<string>, first: string, second: string)
    requires IsPluginName(first) && IsPluginName(second)
    requires AllUnrelated(lines, first) && AllUnrelated(lines, second)
    requires RegistrationPlace(lines).Some? && IsSuffix(second, first)
    ensures Registration(second)[1] in Registered(lines, second)
    ensures Registration(second)[1] !in Unregistered(Registered(Registered(lines, first), second), first)
  {
    hide AllUnrelated, ImportLine, ImportClose, RegistrationPlace, MentionsImport, MentionsCall, IsPluginName, IsSuffix,
         Registered, Unregistered, Reacts, Registration;
    var line := Registration(second)[1];
    UnrelatedMentions(lines, second);
    assert line == Block(second)[2];
    hide Block;
    RegisteredHas(lines, second, line);
    CallMentions(second);
    ImportMentions(second, second);
    NotAmong(line, lines, second);
    if line in Unregistered(Registered(Registered(lines, first), second), first) {
      BothHave(lines, first, second, line);
      CallInBlock(first, second);
    }
  }

  lemma CallMentions(plugin: string)
    ensures MentionsCall([Registration(plugin)[1]], plugin)
  {
    hide Contains, Registration, NewCall;
    IfLineCalls(plugin);
    assert [Registration(plugin)[1]][0] == Registration(plugin)[1];
  }

  /** One plugin's call stands in another's block at most as that one's own call. */
  lemma CallInBlock(other: string, plugin: string)
    requires IsPluginName(plugin) && IsPluginName(other)
    ensures Registration(plugin)[1] in Block(other) ==> Reacts(Registration(plugin)[1], other)
  {
    BlockNoCall(other, plugin);
    IfLineCalls(plugin);
    CallOfItself(other);
    assert Block(other)[2] == Registration(other)[1];
    hide Contains, Registration, NewCall, IsPluginName, Block, Reacts;
  }

  // ----- the theorems -----

  /**
   Removing the plugin that was installed first leaves the file as if only the
   second one had been installed, exactly if neither import is taken for the
   other's, the second call was added, and its block is not read as the first
   one's.  Where there is no import block, or no place for a registration, those
   names do not matter; what stands behind the registrations never does.
   */
  lemma FirstInFirstOut(lines: seq<string>, first: string, second: string)
    requires IsPluginName(first) && IsPluginName(second)
    requires AllUnrelated(lines, first) && AllUnrelated(lines, second)
    ensures Unregistered(Registered(Registered(lines, first), second), first) == Registered(lines, second) <==>
            && !(ImportClose(lines, false).Some? && (first <= second || second <= first))
            && !(RegistrationPlace(lines).Some? && (IsSuffix(second, first) || CommentReadsAs(second, first)))
  {
    hide AllUnrelated, NoneReacts, ImportLine, ImportClose, RegistrationPlace, IsPluginName, IsSuffix, CommentReadsAs,
         Registered, Unregistered, Registration;
    if ImportsApart(lines, first, second) && BlocksApart(lines, first, second) {
      FirstGoesAlone(lines, first, second);
    } else if ImportClose(lines, false).Some? && second <= first {
      ImportMissing(lines, first, second);
    } else if RegistrationPlace(lines).Some? && IsSuffix(second, first) {
      CallMissing(lines, first, second);
    } else {
      RegisteredSilent(lines, second, first);
      NothingLeftReacts(Registered(Registered(lines, first), second), first);
    }
  }

  /**
   Removing the plugin that was installed last undoes that, exactly if its name
   is not taken for the first one's import and not read in its comment, and its
   call was not added or the line behind the registrations is empty.
   */
  lemma LastInFirstOut(lines: seq<string>, first: string, second: string)
    requires IsPluginName(first) && IsPluginName(second)
    requires AllUnrelated(lines, first) && AllUnrelated(lines, second)
    ensures Unregistered(Registered(Registered(lines, first), second), second) == Registered(lines, first) <==>
            && !(ImportClose(lines, false).Some? && second <= first)
            && !(RegistrationPlace(lines).Some? && CommentReadsAs(first, second))
            && (RegistrationPlace(lines).None? || IsSuffix(second, first) || BlankBehind(lines))
  {
    hide AllUnrelated, NoneReacts, ImportLine, ImportClose, RegistrationPlace, IsPluginName, IsSuffix, CommentReadsAs,
         Registered, Unregistered, Registration, BlankBehind;
    var one := Registered(lines, first);
    NothingLeftReacts(Registered(one, second), second);
    RegisteredSilent(lines, first, second);
    if NoneReacts(one, second) {
      if RegistrationPlace(lines).Some? && IsSuffix(second, first) {
        RegisteredMentions(lines, first, second);
        OnlyImportUndone(one, second);
      } else {
        LastUndone(lines, first, second);
      }
    }
  }

  /** If the call was there already, only the import has to go again. */
  lemma OnlyImportUndone(lines: seq<string>, plugin: string)
    requires NoneReacts(lines, plugin) && MentionsCall(lines, plugin)
    ensures Unregistered(Registered(lines, plugin), plugin) == lines
  {
    hide NoneReacts, OnlyImportReacts, ImportLine, MentionsCall, Unregistered, WithImport, WithoutImport;
    WithImportReacts(lines, plugin);
    OnlyImport(WithImport(lines, plugin), plugin);
  }

  lemma LastUndone(lines: seq<string>, first: string, second: string)
    requires IsPluginName(first) && IsPluginName(second)
    requires AllUnrelated(lines, first) && AllUnrelated(lines, second)
    requires NoneReacts(Registered(lines, first), second)
    requires !(ImportClose(lines, false).Some? && second <= first)
    requires !(RegistrationPlace(lines).Some? && IsSuffix(second, first))
    ensures Unregistered(Registered(Registered(lines, first), second), second) == Registered(lines, first) <==>
            RegistrationPlace(lines).None? || BlankBehind(lines)
  {
    hide AllUnrelated, NoneReacts, ImportLine, ImportClose, Unregistered, BlankBehind, RegistrationPlace, IsPluginName,
         IsSuffix, WithImport, WithRegistration, Registered, MentionsImport, MentionsCall;
    RegisteredPlain(lines, first);
    RegisteredMentions(lines, first, second);
    SilentAndUnmentioned(Registered(lines, first), second);
    UnregisterUndoesRegister(Registered(lines, first), second);
    ImportKeepsPlace(lines, first);
    var imported := WithImport(lines, first);
    NoPlaceNoBlock(imported, first);
    if RegistrationPlace(imported).Some? {
      PlaceBehindBlock(imported, first);
      BlankMoves(imported, first);
    }
  }

  lemma SilentAndUnmentioned(lines: seq<string>, plugin: string)
    requires NoneReacts(lines, plugin) && !MentionsImport(lines, plugin) && !MentionsCall(lines, plugin)
    ensures AllUnrelated(lines, plugin)
  {
    hide Contains, StartsRegistration, IsImportOf, ImportPath, NewCall;
    assert forall i | 0 <= i < |lines| :: !Reacts(lines[i], plugin);
  }

  lemma NoPlaceNoBlock(lines: seq<string>, plugin: string)
    ensures RegistrationPlace(lines).None? ==> WithRegistration(lines, plugin) == lines
    ensures BlankBehind(lines) ==> RegistrationPlace(lines).Some?
  {
  }

  /** What stands behind a block stands behind the one inserted there. */
  lemma BlankMoves(lines: seq<string>, plugin: string)
    requires RegistrationPlace(lines).Some?
    requires RegistrationPlace(WithRegistration(lines, plugin)) == Some(RegistrationPlace(lines).value + 5)
    ensures BlankBehind(WithRegistration(lines, plugin)) <==> BlankBehind(lines)
  {
    hide RegistrationPlace, Registration;
    var at, after := RegistrationPlace(lines).value, WithRegistration(lines, plugin);
    assert after == lines[..at] + Block(plugin) + lines[at..];
    assert at < |lines| ==> after[at + 5] == lines[at];
  }
}
