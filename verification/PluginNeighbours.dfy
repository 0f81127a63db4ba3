/** What the backend edits for one plugin do to other plugins (internal/server/upload.go). */
module PluginNeighbours {
  import opened Common
  import opened SourceText
  import opened BackendPlugin
  import opened BackendPluginUndo
  import opened PluginFiles

  /** Unregistering takes away the import of exactly those plugins whose name starts with the given one. */
  lemma ImportGoesByPrefix(plugin: string, other: string)
    requires IsPluginName(plugin) && IsPluginName(other)
    ensures IsImportOf(ImportLine(other), plugin) <==> plugin <= other
  {
    hide Contains, IsPluginName;
    ImportLineNamesPlugin(other);
    if plugin <= other {
      PrefixOccurs(plugin, other);
    }
    if Contains(ImportLine(other), ImportPath(plugin)) {
      OccurrenceIsPrefix(plugin, other);
    }
  }

  function ImportHead(plugin: string): string {
    "\t" + plugin + "plugin \""
  }

  lemma PrefixOccurs(plugin: string, other: string)
    requires plugin <= other
    ensures Contains(ImportLine(other), ImportPath(plugin))
  {
    hide Contains;
    var rest := other[|plugin|..] + "\"";
    Embedded(ImportHead(other), ImportPath(plugin), rest);
    assert other == plugin + other[|plugin|..];
    Associate(ImportHead(other), IMPORT_ROOT, other, "\"");
    Associate(IMPORT_ROOT, plugin, other[|plugin|..], "\"");
    assert ImportHead(other) + ImportPath(plugin) + rest == ImportLine(other);
  }

  /** The root path pins an occurrence to the one place where the line holds a dot. */
  lemma OccurrenceIsPrefix(plugin: string, other: string)
    requires IsPluginName(plugin) && IsPluginName(other)
    requires Contains(ImportLine(other), ImportPath(plugin))
    ensures plugin <= other
  {
    hide IsPluginName, HasChar, ImportLine;
    var line, path := ImportLine(other), ImportPath(plugin);
    var i: nat :| i <= |line| && OccursAt(line, path, i);
    OccurrencePlace(plugin, other, i);
    var at := |ImportHead(other)| + |IMPORT_ROOT|;
    ImportLineTail(other);
    hide ImportHead;
    SliceOfSlice(line, i, i + |path|, |IMPORT_ROOT|, |path|);
    assert path[|IMPORT_ROOT|..] == plugin;
    SliceOfTail(line, at, |plugin|);
    StopsAtQuote(plugin, other);
    NameLacks(plugin, '"');
  }

  lemma OccurrencePlace(plugin: string, other: string, i: nat)
    requires IsPluginName(other) && OccursAt(ImportLine(other), ImportPath(plugin), i)
    ensures i == |ImportHead(other)|
  {
    hide IsPluginName, ImportLine;
    var line, path := ImportLine(other), ImportPath(plugin);
    assert path[6] == IMPORT_ROOT[6] == '.';
    assert line[i + 6] == line[i..i + |path|][6];
    OnlyDot(other);
  }

  lemma SliceOfTail(s: string, at: nat, n: nat)
    requires at + n <= |s|
    ensures s[at..][..n] == s[at..at + n]
  {
  }

  lemma ImportLineTail(plugin: string)
    ensures var at := |ImportHead(plugin)| + |IMPORT_ROOT|;
            at <= |ImportLine(plugin)| && ImportLine(plugin)[at..] == plugin + "\""
  {
    Associate(ImportHead(plugin), IMPORT_ROOT, plugin, "\"");
    assert ImportLine(plugin) == ImportHead(plugin) + IMPORT_ROOT + (plugin + "\"");
  }

  lemma StopsAtQuote(p: string, q: string)
    ensures p <= q + "\"" ==> p <= q || HasChar(p, '"')
  {
    if |p| == |q| + 1 && p <= q + "\"" {
      assert p[|q|] == (q + "\"")[|q|];
    }
  }

  lemma OnlyDot(plugin: string)
    requires IsPluginName(plugin)
    ensures forall i | 0 <= i < |ImportLine(plugin)| ::
              ImportLine(plugin)[i] == '.' ==> i == |ImportHead(plugin)| + 6
  {
    var head, tail := ImportHead(plugin), plugin + "\"";
    LacksThree("\t", plugin, "plugin \"", '.');
    HasCharConcat(plugin, "\"", '.');
    var line := head + IMPORT_ROOT + tail;
    assert ImportLine(plugin) == line;
    forall i | 0 <= i < |line|
      ensures line[i] == '.' ==> i == |head| + 6
    {
      if i < |head| {
        assert line[i] == head[i];
      } else if i < |head| + |IMPORT_ROOT| {
        assert line[i] == IMPORT_ROOT[i - |head|];
      } else {
        assert line[i] == tail[i - |head| - |IMPORT_ROOT|];
      }
    }
  }

  predicate IsSuffix(plugin: string, other: string) {
    |plugin| <= |other| && other[|other| - |plugin|..] == plugin
  }

  /** A plugin's registration call passes for the call of exactly those plugins whose name ends its own. */
  lemma CallSeenBySuffix(plugin: string, other: string)
    requires IsPluginName(plugin) && IsPluginName(other)
    ensures Contains(Registration(other)[1], NewCall(plugin)) <==> IsSuffix(plugin, other)
  {
    hide Contains, Registration, IsPluginName, NewCall;
    IfLineText(other);
    if IsSuffix(plugin, other) {
      SuffixOccurs(plugin, other);
    }
    if Contains(Registration(other)[1], NewCall(plugin)) {
      CallIsSuffix(plugin, other);
    }
  }

  lemma SuffixOccurs(plugin: string, other: string)
    requires IsSuffix(plugin, other)
    ensures Contains(IF_HEAD + other + IF_TAIL, NewCall(plugin))
  {
    hide Contains;
    var front, b := other[..|other| - |plugin|], "); err != nil {";
    assert other == front + plugin;
    assert IF_TAIL == "plugin.New()" + b;
    Embedded(IF_HEAD + front, NewCall(plugin), b);
    assert IF_HEAD + front + NewCall(plugin) + b == IF_HEAD + other + IF_TAIL;
  }

  lemma CallIsSuffix(plugin: string, other: string)
    requires IsPluginName(plugin) && IsPluginName(other)
    requires Contains(IF_HEAD + other + IF_TAIL, NewCall(plugin))
    ensures IsSuffix(plugin, other)
  {
    hide IsPluginName;
    var line, call := IF_HEAD + other + IF_TAIL, NewCall(plugin);
    var i: nat :| i <= |line| && OccursAt(line, call, i);
    CallPlace(other, plugin, i);
    NameLacks(plugin, '(');
    SliceOfSlice(line, i, i + |call|, 0, |plugin|);
    assert call[0..|plugin|] == plugin;
    StopsAtParenthesis(plugin, other, i);
    SliceOfSlice(line, |IF_HEAD|, |IF_HEAD| + |other|, |other| - |plugin|, |other|);
    NameInPlace(IF_HEAD, other, IF_TAIL);
  }

  lemma CallPlace(other: string, plugin: string, i: nat)
    requires IsPluginName(other) && OccursAt(IF_HEAD + other + IF_TAIL, NewCall(plugin), i)
    ensures i + |plugin| == |IF_HEAD| + |other|
  {
    hide IsPluginName;
    var line, call := IF_HEAD + other + IF_TAIL, NewCall(plugin);
    assert call[|plugin| + 6] == "plugin.New()"[6] == '.' && call[|plugin| + 7] == "plugin.New()"[7] == 'N';
    hide NewCall;
    OccursPair(line, call, i, |plugin| + 6);
    CallDot(other);
    var dot := i + |plugin| + 6;
    assert line[dot] == '.' && line[dot + 1] == 'N';
  }

  lemma StopsAtParenthesis(p: string, other: string, i: nat)
    requires i + |p| == |IF_HEAD| + |other| && (IF_HEAD + other + IF_TAIL)[i..i + |p|] == p
    ensures |p| <= |other| || HasChar(p, '(')
  {
    if |other| < |p| {
      var k := |IF_HEAD| - 1 - i;
      assert p[k] == (IF_HEAD + other + IF_TAIL)[i + k] == IF_HEAD[|IF_HEAD| - 1] == '(';
    }
  }

  /** The only dot in front of an N is the one in the call itself. */
  lemma CallDot(other: string)
    requires IsPluginName(other)
    ensures var line := IF_HEAD + other + IF_TAIL;
            forall dot | 0 <= dot < |line| - 1 ::
              line[dot] == '.' && line[dot + 1] == 'N' ==> dot == |IF_HEAD| + |other| + 6
  {
    NameLacks(other, '.');
    hide IsPluginName;
    var line := IF_HEAD + other + IF_TAIL;
    forall dot | 0 <= dot < |line| - 1
      ensures line[dot] == '.' && line[dot + 1] == 'N' ==> dot == |IF_HEAD| + |other| + 6
    {
      if dot < |IF_HEAD| {
        assert line[dot] == IF_HEAD[dot];
        assert dot + 1 < |IF_HEAD| ==> line[dot + 1] == IF_HEAD[dot + 1];
      } else if dot < |IF_HEAD| + |other| {
        assert line[dot] == other[dot - |IF_HEAD|];
      } else {
        assert line[dot] == IF_TAIL[dot - |IF_HEAD| - |other|];
      }
    }
  }

  /**
   Behind a registered plugin whose name starts with the new one's, the import is
   never added; behind one whose name ends with it, the call is never added.
   */
  lemma Shadowed(lines: seq<string>, other: string, plugin: string)
    requires IsPluginName(plugin) && IsPluginName(other)
    ensures plugin <= other && ImportLine(other) in lines ==> WithImport(lines, plugin) == lines
    ensures IsSuffix(plugin, other) && Registration(other)[1] in lines ==>
              Registered(lines, plugin) == WithImport(lines, plugin)
  {
    hide Contains, Registration, IsPluginName, ImportLine, ImportPath, NewCall;
    if plugin <= other && ImportLine(other) in lines {
      ImportGoesByPrefix(plugin, other);
    }
    if IsSuffix(plugin, other) && Registration(other)[1] in lines {
      CallSeenBySuffix(plugin, other);
    }
  }

  // ----- what unregistering one plugin does to another -----

  lemma NoneReactsConcat(a: seq<string>, b: seq<string>, plugin: string)
    ensures NoneReacts(a + b, plugin) <==> NoneReacts(a, plugin) && NoneReacts(b, plugin)
  {
    hide Reacts;
    if NoneReacts(a + b, plugin) {
      assert forall i | 0 <= i < |a| :: a[i] == (a + b)[i];
      forall i | 0 <= i < |b|
        ensures !Reacts(b[i], plugin)
      {
        assert b[i] == (a + b)[|a| + i];
      }
    }
  }

  lemma {:induction false} NothingLeftReacts(lines: seq<string>, plugin: string)
    ensures NoneReacts(Unregistered(lines, plugin), plugin)
    decreases |lines|
  {
    hide IsImportOf, StartsRegistration, BlockLength;
    if lines == [] {
    } else if IsImportOf(lines[0], plugin) {
      NothingLeftReacts(lines[1..], plugin);
    } else if StartsRegistration(lines[0], plugin) {
      NothingLeftReacts(From(lines, BlockLength(lines)), plugin);
    } else {
      NothingLeftReacts(lines[1..], plugin);
      NoneReactsConcat([lines[0]], Unregistered(lines[1..], plugin), plugin);
    }
  }

  /** Unregistering leaves the lines alone exactly if none of them reacts. */
  lemma {:induction false} UnregisteredExact(lines: seq<string>, plugin: string)
    ensures Unregistered(lines, plugin) == lines <==> NoneReacts(lines, plugin)
  {
    NothingLeftReacts(lines, plugin);
    if NoneReacts(lines, plugin) {
      NothingGoes(lines, plugin);
    }
  }

  lemma {:induction false} NothingGoes(lines: seq<string>, plugin: string)
    requires NoneReacts(lines, plugin)
    ensures Unregistered(lines, plugin) == lines
  {
    hide IsImportOf, StartsRegistration, BlockLength;
    if lines != [] {
      assert !Reacts(lines[0], plugin);
      NoneReactsConcat([lines[0]], lines[1..], plugin);
      assert lines == [lines[0]] + lines[1..];
      NothingGoes(lines[1..], plugin);
    }
  }

  lemma {:induction false} TrimLeftContains(s: string, pat: string)
    ensures Contains(TrimLeft(s), pat) ==> Contains(s, pat)
  {
    if s != "" && IsSpace(s[0]) {
      TrimLeftContains(s[1..], pat);
      if i: nat :| i <= |s[1..]| && OccursAt(s[1..], pat, i) {
        assert s[1..][i..i + |pat|] == s[i + 1..i + 1 + |pat|];
        assert OccursAt(s, pat, i + 1);
      }
    }
  }

  lemma {:induction false} TrimRightContains(s: string, pat: string)
    ensures Contains(TrimRight(s), pat) ==> Contains(s, pat)
  {
    if s != "" && IsSpace(s[|s| - 1]) {
      var front := s[..|s| - 1];
      TrimRightContains(front, pat);
      if i: nat :| i <= |front| && OccursAt(front, pat, i) {
        assert front[i..i + |pat|] == s[i..i + |pat|];
        assert OccursAt(s, pat, i);
      }
    }
  }

  /** A line without these two pairs of characters starts no registration of any plugin. */
  lemma StartsNothing(line: string, plugin: string)
    requires !HasPair(line, '/', '/') && !HasPair(line, '.', 'R')
    ensures !StartsRegistration(line, plugin)
  {
    IfTextDot(plugin);
    NoPairNoOccurrence(line, CommentText(plugin), 0);
    NoPairNoOccurrence(line, IfText(plugin), 19);
    hide Contains, CommentText, IfText;
    TrimRightContains(TrimLeft(line), CommentText(plugin));
    TrimLeftContains(line, CommentText(plugin));
    TrimRightContains(TrimLeft(line), IfText(plugin));
    TrimLeftContains(line, IfText(plugin));
  }

  const IF_TEXT := "if err := pluginMgr.Register("

  lemma IfTextDot(plugin: string)
    ensures IfText(plugin) == IF_TEXT + plugin + "plugin.New())"
    ensures |IF_TEXT| == 29 && IfText(plugin)[19] == '.' && IfText(plugin)[20] == 'R' && 21 < |IfText(plugin)|
    ensures IfText(plugin)[35 + |plugin|] == '.' && IfText(plugin)[36 + |plugin|] == 'N'
    ensures IF_HEAD == "\t" + IF_TEXT
  {
    assert IfText(plugin)[19] == IF_TEXT[19] && IfText(plugin)[20] == IF_TEXT[20];
    assert IfText(plugin)[35 + |plugin|] == "plugin.New())"[6] && IfText(plugin)[36 + |plugin|] == "plugin.New())"[7];
  }

  lemma NoPairIn(s: string, c: char, d: char)
    requires !HasChar(s, c)
    ensures !HasPair(s, c, d)
  {
  }

  /** The import line of another plugin is at most taken for an import. */
  lemma ImportStartsNothing(other: string, plugin: string)
    requires IsPluginName(other)
    ensures !StartsRegistration(ImportLine(other), plugin)
  {
    hide StartsRegistration, IsPluginName;
    NameLacks(other, '/');
    NameLacks(other, '.');
    ImportPairs(other, '/', '/');
    ImportPairs(other, '.', 'R');
    StartsNothing(ImportLine(other), plugin);
  }

  lemma ImportPairs(other: string, c: char, d: char)
    requires other != "" && !HasChar(other, c) && (c, d) in {('/', '/'), ('.', 'R')}
    requires other[0] != '/'
    ensures !HasPair(ImportLine(other), c, d)
  {
    hide HasChar;
    NoPairIn(other, c, d);
    LastLacks(other, c);
    var mid := "plugin \"" + IMPORT_ROOT;
    MidPairs();
    PairConcat("\t", other, c, d);
    PairConcat("\t" + other, mid, c, d);
    PairConcat("\t" + other + mid, other, c, d);
    PairConcat("\t" + other + mid + other, "\"", c, d);
    assert ImportLine(other) == "\t" + other + mid + other + "\"";
  }

  lemma LastLacks(s: string, c: char)
    requires !HasChar(s, c) && s != ""
    ensures s[|s| - 1] != c && s[0] != c
  {
  }

  lemma MidPairs()
    ensures !HasPair("plugin \"" + IMPORT_ROOT, '/', '/') && !HasPair("plugin \"" + IMPORT_ROOT, '.', 'R')
    ensures !HasPair("\t", '/', '/') && !HasPair("\t", '.', 'R') && !HasPair("\"", '/', '/') && !HasPair("\"", '.', 'R')
  {
  }

  /** One plugin's comment reads as the other's if its name goes on behind the other's like the comment does. */
  predicate CommentReadsAs(other: string, plugin: string) {
    plugin + " 插件" <= other + " 插件"
  }

  lemma CommentReacts(other: string, plugin: string)
    requires IsPluginName(other)
    ensures Reacts(Registration(other)[0], plugin) <==> CommentReadsAs(other, plugin)
  {
    CommentLine(other);
    CommentNoDot(other, plugin);
    CommentExact(other, plugin);
  }

  lemma CommentNoDot(other: string, plugin: string)
    requires IsPluginName(other)
    ensures !IsImportOf(Registration(other)[0], plugin) && !Contains(CommentText(other), IfText(plugin))
  {
    var line := Registration(other)[0];
    NameLacks(other, '.');
    LacksThree("\t// 注册 ", other, " 插件", '.');
    LacksThree("// 注册 ", other, " 插件", '.');
    assert line == "\t// 注册 " + other + " 插件";
    assert ImportPath(plugin)[6] == '.';
    IfTextDot(plugin);
    hide IsPluginName, HasChar;
    MissingChar(line, ImportPath(plugin), 6);
    MissingChar(CommentText(other), IfText(plugin), 19);
  }

  lemma CommentExact(other: string, plugin: string)
    requires IsPluginName(other)
    ensures Contains(CommentText(other), CommentText(plugin)) <==> CommentReadsAs(other, plugin)
  {
    var text, pat := CommentText(other), CommentText(plugin);
    var head, a, b := "// 注册 ", other + " 插件", plugin + " 插件";
    assert text == head + a && pat == head + b;
    if i: nat :| i <= |text| && OccursAt(text, pat, i) {
      OccursPair(text, pat, i, 0);
      SlashesInFront(other);
      assert a[..|b|] == text[|head|..][..|b|] == pat[|head|..] == b;
    }
    if b <= a {
      assert text[..|pat|] == head + a[..|b|];
      assert OccursAt(text, pat, 0);
    }
  }

  lemma SlashesInFront(other: string)
    requires IsPluginName(other)
    ensures var text := CommentText(other);
            forall i | 0 <= i < |text| - 1 :: text[i] == '/' && text[i + 1] == '/' ==> i == 0
  {
    NameLacks(other, '/');
    hide IsPluginName;
    var head, tail := "// 注册 ", " 插件";
    var text := head + other + tail;
    assert text == CommentText(other);
    forall i | 0 <= i < |text| - 1
      ensures text[i] == '/' && text[i + 1] == '/' ==> i == 0
    {
      if i + 1 < |head| {
        assert text[i + 1] == head[i + 1];
      } else if i + 1 < |head| + |other| {
        assert text[i + 1] == other[i + 1 - |head|];
      } else {
        assert text[i + 1] == tail[i + 1 - |head| - |other|];
      }
    }
  }

  lemma IfLineReacts(other: string, plugin: string)
    requires IsPluginName(plugin) && IsPluginName(other)
    ensures Reacts(Registration(other)[1], plugin) ==> plugin == other
  {
    var line := Registration(other)[1];
    IfLineText(other);
    LiteralsLack();
    NameLacks(other, '/');
    LacksThree(IF_HEAD, other, IF_TAIL, '/');
    NameLacks(other, '.');
    assert ImportPath(plugin)[10] == '/';
    MissingChar(line, ImportPath(plugin), 10);
    MissingChar(line, CommentText(plugin), 0);
    hide Contains, IfText, CommentText, IsPluginName, HasChar;
    TrimRightContains(TrimLeft(line), CommentText(plugin));
    TrimLeftContains(line, CommentText(plugin));
    TrimRightContains(TrimLeft(line), IfText(plugin));
    TrimLeftContains(line, IfText(plugin));
    if Contains(line, IfText(plugin)) {
      IfTextSame(other, plugin);
    }
  }

  lemma IfTextSame(other: string, plugin: string)
    requires IsPluginName(plugin) && IsPluginName(other)
    requires Contains(IF_HEAD + other + IF_TAIL, IfText(plugin))
    ensures plugin == other
  {
    hide IsPluginName, IfText;
    var line, pat := IF_HEAD + other + IF_TAIL, IfText(plugin);
    var i: nat :| i <= |line| && OccursAt(line, pat, i);
    IfTextPlace(other, plugin, i);
    NameInPlace(IF_TEXT, plugin, "plugin.New())");
    NameInPlace(IF_HEAD, other, IF_TAIL);
    IfTextDot(plugin);
    SliceOfSlice(line, 1, 1 + |pat|, 29, 29 + |plugin|);
  }

  lemma IfTextPlace(other: string, plugin: string, i: nat)
    requires IsPluginName(other) && OccursAt(IF_HEAD + other + IF_TAIL, IfText(plugin), i)
    ensures i == 1 && |plugin| == |other|
  {
    hide IsPluginName, IfText;
    var line, pat := IF_HEAD + other + IF_TAIL, IfText(plugin);
    IfTextDot(plugin);
    OccursPair(line, pat, i, 19);
    RegisterDot(other);
    OccursPair(line, pat, i, 35 + |plugin|);
    CallDot(other);
    hide OccursAt;
    var dot := i + 35 + |plugin|;
    assert line[i + 19] == '.' && line[i + 19 + 1] == 'R';
    assert line[dot] == '.' && line[dot + 1] == 'N';
  }

  lemma NameInPlace(head: string, name: string, tail: string)
    ensures (head + name + tail)[|head|..|head| + |name|] == name
  {
  }

  /** The only dot in front of an R is the one in front of Register. */
  lemma RegisterDot(other: string)
    requires IsPluginName(other)
    ensures var line := IF_HEAD + other + IF_TAIL;
            forall dot | 0 <= dot < |line| - 1 :: line[dot] == '.' && line[dot + 1] == 'R' ==> dot == 20
  {
    NameLacks(other, '.');
    hide IsPluginName;
    var line := IF_HEAD + other + IF_TAIL;
    forall dot | 0 <= dot < |line| - 1
      ensures line[dot] == '.' && line[dot + 1] == 'R' ==> dot == 20
    {
      if dot < |IF_HEAD| {
        assert line[dot] == IF_HEAD[dot];
      } else if dot < |IF_HEAD| + |other| {
        assert line[dot] == other[dot - |IF_HEAD|];
      } else {
        var k := dot - |IF_HEAD| - |other|;
        assert line[dot] == IF_TAIL[k] && line[dot + 1] == IF_TAIL[k + 1];
      }
    }
  }

  lemma LogLineReacts(other: string, plugin: string)
    requires IsPluginName(other)
    ensures !Reacts(Registration(other)[2], plugin) && !Reacts(Registration(other)[3], plugin) && !Reacts("", plugin)
  {
    var line, last := Registration(other)[2], Registration(other)[3];
    NameLacks(other, '/');
    NameLacks(other, '.');
    LogLineLacks(other, '/');
    LogPairs(other);
    assert ImportPath(plugin)[10] == '/';
    MissingChar(line, ImportPath(plugin), 10);
    MissingChar(last, ImportPath(plugin), 10);
    MissingChar("", ImportPath(plugin), 10);
    NoPairIn(line, '/', '/');
    hide StartsRegistration, IsPluginName;
    StartsNothing(line, plugin);
    StartsNothing(last, plugin);
    StartsNothing("", plugin);
  }

  lemma LogPairs(other: string)
    requires other != "" && !HasChar(other, '.')
    ensures !HasPair(Registration(other)[2], '.', 'R')
  {
    var head, tail := "\t\tappLogger.Error(\"注册", "插件失败\", zap.Error(err))";
    NoPairIn(other, '.', 'R');
    LastLacks(other, '.');
    assert !HasPair(head, '.', 'R') && !HasPair(tail, '.', 'R');
    hide HasChar, HasPair;
    PairConcat(head, other, '.', 'R');
    PairConcat(head + other, tail, '.', 'R');
    assert Registration(other)[2] == head + other + tail;
  }

  lemma BlockReacts(other: string, plugin: string)
    requires IsPluginName(plugin) && IsPluginName(other)
    ensures NoneReacts([""] + Registration(other), plugin) <==> !CommentReadsAs(other, plugin)
  {
    CommentReacts(other, plugin);
    IfLineReacts(other, plugin);
    LogLineReacts(other, plugin);
    hide Reacts, Registration;
    var block := [""] + Registration(other);
    assert block[0] == "" && forall i | 0 <= i < 4 :: block[i + 1] == Registration(other)[i];
    assert CommentReadsAs(other, other);
  }

  /**
   On whole sources: unregistering a plugin leaves another one, just registered,
   alone exactly if that has no import to lose and no block to lose.  An import
   is lost if the name starts with the other's, a block if its comment does.
   */
  lemma NeighbourSurvives(lines: seq<string>, other: string, plugin: string)
    requires IsPluginName(plugin) && IsPluginName(other)
    requires AllUnrelated(lines, other) && AllUnrelated(lines, plugin)
    ensures Unregistered(Registered(lines, other), plugin) == Registered(lines, other) <==>
            && !(ImportClose(lines, false).Some? && plugin <= other)
            && !(RegistrationPlace(lines).Some? && CommentReadsAs(other, plugin))
  {
    hide Unrelated, AllUnrelated, NoneReacts, Registration, ImportClose, RegistrationPlace, CommentReadsAs,
         IsPluginName, MentionsImport, MentionsCall, Unregistered, WithImport, WithRegistration;
    UnregisteredExact(Registered(lines, other), plugin);
    UnrelatedReacts(lines, plugin);
    UnrelatedMentions(lines, other);
    ImportKeepsPlace(lines, other);
    ImportedReacts(lines, other, plugin);
    BlockReacts(other, plugin);
    RegisteredReacts(WithImport(lines, other), other, plugin);
  }

  lemma ImportedReacts(lines: seq<string>, other: string, plugin: string)
    requires IsPluginName(plugin) && IsPluginName(other) && !MentionsImport(lines, other)
    ensures NoneReacts(WithImport(lines, other), plugin) <==>
            NoneReacts(lines, plugin) && !(ImportClose(lines, false).Some? && plugin <= other)
  {
    hide NoneReacts, ImportLine, ImportClose, IsPluginName, MentionsImport;
    if ImportClose(lines, false).Some? {
      var at := ImportClose(lines, false).value;
      assert lines == lines[..at] + lines[at..];
      NoneReactsConcat(lines[..at], lines[at..], plugin);
      InsertReacts(lines[..at], [ImportLine(other)], lines[at..], plugin);
      OneReacts(other, plugin);
    }
  }

  lemma RegisteredReacts(lines: seq<string>, other: string, plugin: string)
    ensures NoneReacts(WithRegistration(lines, other), plugin) <==>
            NoneReacts(lines, plugin)
            && (RegistrationPlace(lines).Some? ==> NoneReacts([""] + Registration(other), plugin))
  {
    hide NoneReacts, RegistrationPlace, Registration;
    if RegistrationPlace(lines).Some? {
      var at := RegistrationPlace(lines).value;
      assert lines == lines[..at] + lines[at..];
      NoneReactsConcat(lines[..at], lines[at..], plugin);
      InsertReacts(lines[..at], [""] + Registration(other), lines[at..], plugin);
    }
  }

  lemma InsertReacts(a: seq<string>, new_: seq<string>, b: seq<string>, plugin: string)
    ensures NoneReacts(a + new_ + b, plugin) <==>
            NoneReacts(a, plugin) && NoneReacts(new_, plugin) && NoneReacts(b, plugin)
  {
    hide NoneReacts;
    NoneReactsConcat(a, new_, plugin);
    NoneReactsConcat(a + new_, b, plugin);
  }

  lemma OneReacts(other: string, plugin: string)
    requires IsPluginName(plugin) && IsPluginName(other)
    ensures NoneReacts([ImportLine(other)], plugin) <==> !(plugin <= other)
  {
    ImportGoesByPrefix(plugin, other);
    ImportStartsNothing(other, plugin);
    hide IsImportOf, StartsRegistration, ImportLine;
    assert [ImportLine(other)][0] == ImportLine(other);
  }

  lemma UnrelatedMentions(lines: seq<string>, plugin: string)
    requires AllUnrelated(lines, plugin)
    ensures !MentionsImport(lines, plugin) && !MentionsCall(lines, plugin)
  {
    hide Contains, StartsRegistration;
    assert forall i | 0 <= i < |lines| :: Unrelated(lines[i], plugin);
  }

  /** If no line starts a registration of the plugin, only imports go. */
  lemma {:induction false} OnlyImportsGo(lines: seq<string>, plugin: string, line: string)
    requires forall i | 0 <= i < |lines| :: !StartsRegistration(lines[i], plugin)
    requires line in lines && !IsImportOf(line, plugin)
    ensures line in Unregistered(lines, plugin)
  {
    hide IsImportOf, StartsRegistration, BlockLength;
    var rest := lines[1..];
    assert !StartsRegistration(lines[0], plugin);
    assert forall i | 0 <= i < |rest| :: rest[i] == lines[i + 1];
    if line != lines[0] {
      OnlyImportsGo(rest, plugin, line);
    }
  }

  /**
   In the common failing case the import of the other plugin goes and its call
   stays, so the source does not compile.
   */
  lemma CallWithoutImport(lines: seq<string>, other: string, plugin: string)
    requires IsPluginName(plugin) && IsPluginName(other)
    requires AllUnrelated(lines, other) && AllUnrelated(lines, plugin)
    requires ImportClose(lines, false).Some? && RegistrationPlace(lines).Some?
    requires plugin <= other && !CommentReadsAs(other, plugin)
    ensures ImportLine(other) in Registered(lines, other) && Registration(other)[1] in Registered(lines, other)
    ensures var left := Unregistered(Registered(lines, other), plugin);
            ImportLine(other) !in left && Registration(other)[1] in left
  {
    hide Unrelated, AllUnrelated, Registration, ImportClose, RegistrationPlace, CommentReadsAs, IsPluginName,
         ImportLine, Unregistered, IsImportOf, StartsRegistration, MentionsImport, MentionsCall;
    var registered := Registered(lines, other);
    UnrelatedMentions(lines, other);
    ImportKeepsPlace(lines, other);
    Inserted(lines, other);
    ImportGoesByPrefix(plugin, other);
    NothingLeftReacts(registered, plugin);
    NoStarts(lines, other, plugin);
    CallIsNoImport(other, plugin);
    OnlyImportsGo(registered, plugin, Registration(other)[1]);
    assert Reacts(ImportLine(other), plugin);
  }

  lemma InsertHas(lines: seq<string>, at: nat, new_: seq<string>, line: string)
    requires at <= |lines|
    ensures line in Insert(lines, at, new_) <==> line in lines || line in new_
  {
    assert lines == lines[..at] + lines[at..];
  }

  lemma Inserted(lines: seq<string>, other: string)
    requires !MentionsImport(lines, other) && !MentionsCall(lines, other)
    requires ImportClose(lines, false).Some? && RegistrationPlace(WithImport(lines, other)).Some?
    ensures ImportLine(other) in Registered(lines, other) && Registration(other)[1] in Registered(lines, other)
    ensures forall line | line in Registered(lines, other) ::
              line in lines || line == ImportLine(other) || line in [""] + Registration(other)
  {
    hide Registration, ImportClose, RegistrationPlace, ImportLine, MentionsImport, MentionsCall;
    var imported := WithImport(lines, other);
    var at, block := ImportClose(lines, false).value, [""] + Registration(other);
    assert block[2] == Registration(other)[1];
    hide Insert;
    forall line
      ensures line in Registered(lines, other) <==> line in lines || line == ImportLine(other) || line in block
    {
      InsertHas(lines, at, [ImportLine(other)], line);
      InsertHas(imported, RegistrationPlace(imported).value, block, line);
    }
  }

  lemma CallIsNoImport(other: string, plugin: string)
    requires IsPluginName(other)
    ensures !IsImportOf(Registration(other)[1], plugin)
  {
    IfLineText(other);
    LiteralsLack();
    NameLacks(other, '/');
    LacksThree(IF_HEAD, other, IF_TAIL, '/');
    assert ImportPath(plugin)[10] == '/';
    MissingChar(Registration(other)[1], ImportPath(plugin), 10);
  }

  lemma NoStarts(lines: seq<string>, other: string, plugin: string)
    requires IsPluginName(plugin) && IsPluginName(other) && AllUnrelated(lines, plugin)
             && !CommentReadsAs(other, plugin)
    requires forall line | line in Registered(lines, other) ::
               line in lines || line == ImportLine(other) || line in [""] + Registration(other)
    ensures forall i | 0 <= i < |Registered(lines, other)| :: !StartsRegistration(Registered(lines, other)[i], plugin)
  {
    hide StartsRegistration, Registration, ImportLine, IsPluginName, CommentReadsAs, Contains, Registered, IsImportOf;
    BlockReacts(other, plugin);
    ImportStartsNothing(other, plugin);
    UnrelatedReacts(lines, plugin);
    var registered, block := Registered(lines, other), [""] + Registration(other);
    forall i | 0 <= i < |registered|
      ensures !StartsRegistration(registered[i], plugin)
    {
      var line := registered[i];
      assert line in registered;
      if line in lines {
        var k :| 0 <= k < |lines| && lines[k] == line;
        assert !Reacts(lines[k], plugin);
      } else if line in block {
        var k :| 0 <= k < |block| && block[k] == line;
        assert !Reacts(block[k], plugin);
      }
    }
  }

  // ----- whole files -----

  lemma EmptyLineStays(plugin: string)
    ensures SplitLines("") == [""] && JoinLines([]) == "" && Unregistered([""], plugin) == [""]
  {
    EmptyLineUnrelated(plugin);
    hide Contains, StartsRegistration;
    NothingGoes([""], plugin);
  }

  /** The same on the text of the file. */
  lemma NeighbourSurvivesInFile(text: string, other: string, plugin: string)
    requires IsPluginName(plugin) && IsPluginName(other)
    requires AllUnrelated(SplitLines(text), other) && AllUnrelated(SplitLines(text), plugin)
    ensures var lines := SplitLines(text);
            UnregisterText(RegisterText(text, other), plugin) == RegisterText(text, other) <==>
            && !(ImportClose(lines, false).Some? && plugin <= other)
            && !(RegistrationPlace(lines).Some? && CommentReadsAs(other, plugin))
  {
    hide Contains, ImportLine, Registration, HasChar, IsPluginName, RegistrationPlace, Registered, Unregistered,
         AllUnrelated, ImportClose, CommentReadsAs, SplitLines, JoinLines, NoneReacts;
    var lines := SplitLines(text);
    var registered := Registered(lines, other);
    JoinSplit(text);
    NeighbourSurvives(lines, other, plugin);
    RegisteredSingle(lines, other);
    SplitJoin(registered);
    UnregisteredSingle(registered, plugin);
    if Unregistered(registered, plugin) != [] {
      SameText(Unregistered(registered, plugin), registered);
    } else {
      EmptyLineStays(plugin);
      assert JoinLines(registered) == "" ==> registered == SplitLines("");
    }
  }

  const CALL_TAIL := "k8s); err != nil {"
  const CALL_LINE := IF_HEAD + CALL_TAIL

  /** A file with an import block and a registration. */
  function SmallFile(): seq<string> {
    [IMPORT_OPEN, ")", CALL_LINE, "\t}", ""]
  }

  lemma PlainLine(line: string, plugin: string)
    requires !HasChar(line, '/') && !HasChar(line, 'N')
    ensures Unrelated(line, plugin)
  {
    IfTextDot(plugin);
    assert ImportPath(plugin)[10] == '/' && NewCall(plugin)[|plugin| + 7] == "plugin.New()"[7] == 'N';
    hide HasChar, ImportPath, NewCall, IfText;
    MissingChar(line, ImportPath(plugin), 10);
    MissingChar(line, NewCall(plugin), |plugin| + 7);
    MissingChar(line, CommentText(plugin), 0);
    MissingChar(line, IfText(plugin), 36 + |plugin|);
    hide Contains, CommentText;
    TrimRightContains(TrimLeft(line), CommentText(plugin));
    TrimLeftContains(line, CommentText(plugin));
    TrimRightContains(TrimLeft(line), IfText(plugin));
    TrimLeftContains(line, IfText(plugin));
  }

  lemma SmallFileUnrelated(plugin: string)
    ensures AllUnrelated(SmallFile(), plugin)
  {
    PlainTexts();
    hide HasChar, Unrelated;
    PlainLine(IMPORT_OPEN, plugin);
    PlainLine(")", plugin);
    PlainLine(CALL_LINE, plugin);
    PlainLine("\t}", plugin);
    PlainLine("", plugin);
  }

  lemma PlainTexts()
    ensures !HasChar(IMPORT_OPEN, '/') && !HasChar(IMPORT_OPEN, 'N')
    ensures !HasChar(")", '/') && !HasChar(")", 'N') && !HasChar("", '/') && !HasChar("", 'N')
    ensures !HasChar(CALL_LINE, '/') && !HasChar(CALL_LINE, 'N') && !HasChar(CALL_LINE, '}') && HasChar(CALL_LINE, '{')
    ensures !HasChar("\t}", '/') && !HasChar("\t}", 'N') && !HasChar("\t}", '{') && !HasChar("\t}", 'p')
    ensures HasChar("\t}", '}')
  {
    LiteralsLack();
    CallTexts();
    assert "\t}"[1] == '}';
    hide HasChar;
    HasCharConcat(IF_HEAD, CALL_TAIL, '/');
    HasCharConcat(IF_HEAD, CALL_TAIL, 'N');
    HasCharConcat(IF_HEAD, CALL_TAIL, '}');
    HasCharConcat(IF_HEAD, CALL_TAIL, '{');
  }

  lemma CallTexts()
    ensures !HasChar(IF_HEAD, 'N')
    ensures !HasChar(CALL_TAIL, '/') && !HasChar(CALL_TAIL, 'N') && !HasChar(CALL_TAIL, '}') && HasChar(CALL_TAIL, '{')
  {
    assert CALL_TAIL[|CALL_TAIL| - 1] == '{';
  }

  lemma SmallImportClose()
    ensures ImportClose(SmallFile(), false).Some?
  {
    var lines := SmallFile();
    Embedded("", IMPORT_OPEN, "");
    assert IMPORT_OPEN == "" + IMPORT_OPEN + "";
    hide Contains;
    assert TrimSpace(")") == ")";
    assert lines[1..][0] == ")";
    assert ImportClose(lines[1..], true) == Some(0);
  }

  lemma CallLine()
    ensures Contains(CALL_LINE, REGISTER_CALL) && Contains(CALL_LINE, "{") && !Contains(CALL_LINE, "}")
    ensures !Contains("\t}", REGISTER_CALL) && !Contains("", REGISTER_CALL) && Contains("\t}", "}")
            && !Contains("\t}", "{")
  {
    hide Contains, HasChar;
    PlainTexts();
    CallsRegister();
    NotRegister();
    ContainsChar(CALL_LINE, '{');
    ContainsChar(CALL_LINE, '}');
    ContainsChar("\t}", '{');
    ContainsChar("\t}", '}');
  }

  lemma CallsRegister()
    ensures Contains(CALL_LINE, REGISTER_CALL)
  {
    hide Contains;
    Embedded("\tif err := ", REGISTER_CALL, CALL_TAIL);
    assert IF_HEAD == "\tif err := " + REGISTER_CALL;
  }

  lemma NotRegister()
    ensures !Contains("\t}", REGISTER_CALL) && !Contains("", REGISTER_CALL)
  {
    assert REGISTER_CALL[0] == 'p';
    hide Contains;
    MissingChar("\t}", REGISTER_CALL, 0);
    EmptyContains(REGISTER_CALL);
  }

  lemma EmptyContains(pat: string)
    ensures Contains("", pat) <==> pat == ""
  {
    assert pat == "" ==> OccursAt("", pat, 0);
  }

  lemma SmallRegistrationPlace()
    ensures RegistrationPlace(SmallFile()).Some?
  {
    CallLine();
    hide Contains;
    var front, block := [IMPORT_OPEN, ")"], [CALL_LINE, "\t}", ""];
    assert SmallFile() == front + block;
    LastCallConcat(front, block);
    LastOfBlock(block);
    assert (front + block)[2..] == block;
    BlockOf(block);
  }

  lemma LastOfBlock(block: seq<string>)
    requires |block| == 3 && Contains(block[0], REGISTER_CALL)
    requires !Contains(block[1], REGISTER_CALL) && !Contains(block[2], REGISTER_CALL)
    ensures LastCall(block) == Some(0)
  {
    hide Contains;
    assert block[..2][1] == block[1] && block[..2][..1] == block[..1] && block[..1][0] == block[0];
    assert LastCall(block[..1]) == Some(0) && LastCall(block[..2]) == Some(0);
  }

  lemma BlockOf(block: seq<string>)
    requires 2 <= |block| && Contains(block[0], "{") && !Contains(block[0], "}")
    requires Contains(block[1], "}") && !Contains(block[1], "{")
    ensures BlockClose(block, 0, false) == Some(1)
  {
    hide Contains;
    assert block[1..][0] == block[1];
    assert BlockClose(block[1..], 1, true) == Some(0);
  }

  /** A plugin's import is lost when a plugin named by a prefix of its name is removed, and its call stays. */
  lemma PrefixLosesImport()
    ensures var left := Unregistered(Registered(SmallFile(), "taskflow"), "task");
            ImportLine("taskflow") !in left && Registration("taskflow")[1] in left
  {
    SmallFileUnrelated("task");
    SmallFileUnrelated("taskflow");
    SmallImportClose();
    SmallRegistrationPlace();
    TaskNames();
    hide *;
    CallWithoutImport(SmallFile(), "taskflow", "task");
  }

  lemma TaskNames()
    ensures IsPluginName("task") && IsPluginName("taskflow") && "task" <= "taskflow"
    ensures !CommentReadsAs("taskflow", "task")
  {
    assert "taskflow"[..4] == "task";
    assert ("task" + " 插件")[4] == ' ' && ("taskflow" + " 插件")[4] == 'f';
  }

  /** The same file with code right behind the registration. */
  function CrowdedFile(): seq<string> {
    [IMPORT_OPEN, ")", CALL_LINE, "\t}", "}"]
  }

  /** Registering a plugin and unregistering it again does not restore that file. */
  lemma CrowdedFileNotRestored(plugin: string)
    requires IsPluginName(plugin)
    ensures Unregistered(Registered(CrowdedFile(), plugin), plugin) != CrowdedFile()
  {
    CrowdedFileUnrelated(plugin);
    CrowdedPlace();
    hide AllUnrelated, RegistrationPlace, IsPluginName;
    UnregisterUndoesRegister(CrowdedFile(), plugin);
  }

  lemma CrowdedFileUnrelated(plugin: string)
    ensures AllUnrelated(CrowdedFile(), plugin)
  {
    PlainTexts();
    assert !HasChar("}", '/') && !HasChar("}", 'N');
    hide HasChar, Unrelated;
    PlainLine(IMPORT_OPEN, plugin);
    PlainLine(")", plugin);
    PlainLine(CALL_LINE, plugin);
    PlainLine("\t}", plugin);
    PlainLine("}", plugin);
  }

  lemma CrowdedPlace()
    ensures RegistrationPlace(CrowdedFile()) == Some(4)
  {
    CallLine();
    assert !HasChar("}", 'p') && REGISTER_CALL[0] == 'p';
    MissingChar("}", REGISTER_CALL, 0);
    hide Contains, HasChar;
    var front, block := [IMPORT_OPEN, ")"], [CALL_LINE, "\t}", "}"];
    assert CrowdedFile() == front + block;
    LastCallConcat(front, block);
    LastOfBlock(block);
    assert (front + block)[2..] == block;
    BlockOf(block);
  }
}
