/** Where the backend edits put their lines, stated on the lines themselves (internal/server/upload.go). */
module PluginPlaces {
  import opened Common
  import opened SourceText
  import opened BackendPlugin
  import opened BackendPluginUndo
  import opened PluginNeighbours

  // ----- the import -----

  /** A closing parenthesis alone on its line, with an import block opened above it. */
  predicate ClosesImports(lines: seq<string>, i: int) {
    && 0 <= i < |lines| && TrimSpace(lines[i]) == ")"
    && exists j | 0 <= j <= i :: Contains(lines[j], IMPORT_OPEN)
  }

  predicate ClosesWith(lines: seq<string>, inBlock: bool, i: int) {
    && 0 <= i < |lines| && TrimSpace(lines[i]) == ")"
    && (inBlock || exists j | 0 <= j <= i :: Contains(lines[j], IMPORT_OPEN))
  }

  lemma {:induction false} CloseIsFirst(lines: seq<string>, inBlock: bool)
    ensures match ImportClose(lines, inBlock)
            case None => forall i :: !ClosesWith(lines, inBlock, i)
            case Some(n) => ClosesWith(lines, inBlock, n) && forall i | i < n :: !ClosesWith(lines, inBlock, i)
  {
    hide TrimSpace, Contains;
    if lines != [] {
      var inBlock' := inBlock || Contains(lines[0], IMPORT_OPEN);
      CloseIsFirst(lines[1..], inBlock');
      forall i | 0 < i
        ensures ClosesWith(lines, inBlock, i) <==> ClosesWith(lines[1..], inBlock', i - 1)
      {
        CloseBelow(lines, inBlock, i);
      }
    }
  }

  lemma CloseBelow(lines: seq<string>, inBlock: bool, i: int)
    requires lines != [] && 0 < i
    ensures ClosesWith(lines, inBlock, i) <==>
            ClosesWith(lines[1..], inBlock || Contains(lines[0], IMPORT_OPEN), i - 1)
  {
    hide TrimSpace, Contains;
    assert forall j | 0 <= j < |lines[1..]| :: lines[1..][j] == lines[j + 1];
    if i < |lines| {
      if j :| 0 <= j <= i && Contains(lines[j], IMPORT_OPEN) {
        assert j == 0 || Contains(lines[1..][j - 1], IMPORT_OPEN);
      }
      if j :| 0 <= j <= i - 1 && Contains(lines[1..][j], IMPORT_OPEN) {
        assert Contains(lines[j + 1], IMPORT_OPEN);
      }
    }
  }

  /** The import goes in front of the first line that closes an import block, and nowhere else. */
  lemma ImportPlace(lines: seq<string>, plugin: string)
    ensures forall i | ClosesImports(lines, i) && (forall k | k < i :: !ClosesImports(lines, k)) ::
              !MentionsImport(lines, plugin) ==>
                WithImport(lines, plugin) == lines[..i] + [ImportLine(plugin)] + lines[i..]
    ensures MentionsImport(lines, plugin) || (forall i :: !ClosesImports(lines, i)) ==>
              WithImport(lines, plugin) == lines
  {
    hide TrimSpace, Contains, ImportLine, MentionsImport, ImportClose;
    CloseIsFirst(lines, false);
    assert forall i :: ClosesImports(lines, i) <==> ClosesWith(lines, false, i);
  }

  // ----- the registration -----

  /** How many of the lines hold the text. */
  function Count(lines: seq<string>, pat: string): nat {
    if lines == [] then 0 else (if Contains(lines[0], pat) then 1 else 0) + Count(lines[1..], pat)
  }

  /** As many of the lines up to this one close a brace as open one, this one does, and there is one that opens. */
  predicate Balances(lines: seq<string>, i: int) {
    BalancesWith(lines, 0, false, i)
  }

  predicate BalancesWith(lines: seq<string>, count: int, open: bool, i: int) {
    && 0 <= i < |lines| && Contains(lines[i], "}")
    && (open || 0 < Count(lines[..i + 1], "{"))
    && count + Count(lines[..i + 1], "{") == Count(lines[..i + 1], "}")
  }

  lemma CountFirst(lines: seq<string>, i: nat, pat: string)
    requires i < |lines|
    ensures Count(lines[..i + 1], pat) == (if Contains(lines[0], pat) then 1 else 0) + Count(lines[1..][..i], pat)
  {
    hide Contains;
    assert lines[..i + 1][1..] == lines[1..][..i];
  }

  lemma {:induction false} BlockIsFirst(lines: seq<string>, count: int, open: bool)
    ensures match BlockClose(lines, count, open)
            case None => forall i :: !BalancesWith(lines, count, open, i)
            case Some(n) =>
              BalancesWith(lines, count, open, n) && forall i | i < n :: !BalancesWith(lines, count, open, i)
  {
    hide Contains, Count;
    if lines != [] {
      var opens, closes := Contains(lines[0], "{"), Contains(lines[0], "}");
      var count' := count + (if opens then 1 else 0) - (if closes then 1 else 0);
      BlockIsFirst(lines[1..], count', open || opens);
      forall i | 0 < i
        ensures BalancesWith(lines, count, open, i) <==> BalancesWith(lines[1..], count', open || opens, i - 1)
      {
        BalanceBelow(lines, count, open, i);
      }
      BalanceHere(lines, count, open);
    }
  }

  lemma BalanceHere(lines: seq<string>, count: int, open: bool)
    requires lines != []
    ensures var opens, closes := Contains(lines[0], "{"), Contains(lines[0], "}");
            BalancesWith(lines, count, open, 0) <==>
            closes && (open || opens) && count + (if opens then 1 else 0) - (if closes then 1 else 0) == 0
  {
    hide Contains;
    CountFirst(lines, 0, "{");
    CountFirst(lines, 0, "}");
    assert lines[1..][..0] == [];
  }

  lemma BalanceBelow(lines: seq<string>, count: int, open: bool, i: int)
    requires lines != [] && 0 < i
    ensures var opens, closes := Contains(lines[0], "{"), Contains(lines[0], "}");
            BalancesWith(lines, count, open, i) <==>
            BalancesWith(lines[1..], count + (if opens then 1 else 0) - (if closes then 1 else 0), open || opens, i - 1)
  {
    hide Contains, Count;
    if i < |lines| {
      CountFirst(lines, i, "{");
      CountFirst(lines, i, "}");
      assert lines[1..][i - 1] == lines[i];
    }
  }

  lemma BalanceIsFirst(lines: seq<string>)
    ensures match BlockClose(lines, 0, false)
            case None => forall i :: !Balances(lines, i)
            case Some(n) => n < |lines| && Balances(lines, n) && forall i | i < n :: !Balances(lines, i)
  {
    hide BalancesWith, BlockClose;
    BlockCloseInside(lines, 0, false);
    BlockIsFirst(lines, 0, false);
  }

  /** `call` is the last line that registers a plugin. */
  predicate CallsLast(lines: seq<string>, call: int) {
    && 0 <= call < |lines| && Contains(lines[call], REGISTER_CALL)
    && forall k | call < k < |lines| :: !Contains(lines[k], REGISTER_CALL)
  }

  lemma {:induction false} CallIsLast(lines: seq<string>)
    ensures match LastCall(lines)
            case None => forall call :: !CallsLast(lines, call)
            case Some(n) => CallsLast(lines, n) && forall call | CallsLast(lines, call) :: call == n
    ensures LastCall(lines).None? ==> forall k | 0 <= k < |lines| :: !Contains(lines[k], REGISTER_CALL)
  {
    hide Contains;
    if lines != [] && !Contains(lines[|lines| - 1], REGISTER_CALL) {
      var front := lines[..|lines| - 1];
      CallIsLast(front);
      assert forall k | 0 <= k < |front| :: front[k] == lines[k];
    }
  }

  /**
   The registration goes behind the line at which the braces opened since the
   last registration call are balanced first ...
   */
  lemma RegistrationIsBehind(lines: seq<string>, plugin: string, call: nat, n: nat)
    requires CallsLast(lines, call) && Balances(lines[call..], n) && forall k | k < n :: !Balances(lines[call..], k)
    ensures var at := call + n + 1;
            at <= |lines|
            && WithRegistration(lines, plugin) == lines[..at] + ([""] + Registration(plugin)) + lines[at..]
  {
    hide Contains, Registration, LastCall, BlockClose, Balances;
    CallIsLast(lines);
    BalanceIsFirst(lines[call..]);
    assert LastCall(lines) == Some(call);
  }

  /** ... and nowhere else. */
  lemma NoRegistration(lines: seq<string>, plugin: string)
    requires forall call, n | CallsLast(lines, call) :: !Balances(lines[call..], n)
    ensures WithRegistration(lines, plugin) == lines
  {
    hide Contains, Registration, LastCall, BlockClose, Balances;
    CallIsLast(lines);
    if LastCall(lines).Some? {
      var call := LastCall(lines).value;
      BalanceIsFirst(lines[call..]);
    }
  }

  // ----- what is taken out -----

  /** Where the braces of a registration are counted from: behind its comment, if it starts with one. */
  function BracesFrom(lines: seq<string>): (n: nat)
    requires lines != []
    ensures n <= |lines|
  {
    if Contains(TrimSpace(lines[0]), "//") then 1 else 0
  }

  /**
   A line that starts a registration takes the lines with it up to the first one
   at which the braces are balanced, and one blank line behind that.
   */
  lemma BlockGoes(lines: seq<string>, plugin: string, n: nat)
    requires lines != [] && StartsRegistration(lines[0], plugin) && !IsImportOf(lines[0], plugin)
    requires var block := lines[BracesFrom(lines)..];
             Balances(block, n) && forall k | k < n :: !Balances(block, k)
    ensures var behind := BracesFrom(lines) + n + 1;
            behind <= |lines| && Unregistered(lines, plugin) == Unregistered(SkipBlank(lines[behind..]), plugin)
  {
    hide *;
    SkipsBlock(lines, plugin);
    BlockReaches(lines, n);
  }

  lemma SkipsBlock(lines: seq<string>, plugin: string)
    requires lines != [] && StartsRegistration(lines[0], plugin) && !IsImportOf(lines[0], plugin)
    ensures Unregistered(lines, plugin) == Unregistered(From(lines, BlockLength(lines)), plugin)
  {
    hide StartsRegistration, IsImportOf, From, BlockLength;
  }

  lemma BlockReaches(lines: seq<string>, n: nat)
    requires lines != []
    requires var block := lines[BracesFrom(lines)..];
             Balances(block, n) && forall k | k < n :: !Balances(block, k)
    ensures var behind := BracesFrom(lines) + n + 1;
            behind <= |lines| && From(lines, BlockLength(lines)) == SkipBlank(lines[behind..])
  {
    hide Contains, TrimSpace, BlockClose, Balances;
    BalanceIsFirst(lines[BracesFrom(lines)..]);
    var behind := BracesFrom(lines) + n + 1;
    assert lines[behind..] != [] ==> lines[behind..][0] == lines[behind] && lines[behind..][1..] == lines[behind + 1..];
  }

  /** If they never are, all the rest of the file goes. */
  lemma UnbalancedTakesRest(lines: seq<string>, plugin: string)
    requires lines != [] && StartsRegistration(lines[0], plugin) && !IsImportOf(lines[0], plugin)
    requires forall k :: !Balances(lines[BracesFrom(lines)..], k)
    ensures Unregistered(lines, plugin) == []
  {
    hide Contains, TrimSpace, StartsRegistration, IsImportOf, BlockClose, Balances, Unregistered;
    SkipsBlock(lines, plugin);
    BalanceIsFirst(lines[BracesFrom(lines)..]);
    UnregisterNothing(plugin);
  }

  /** A line that names the plugin's import path without quoting anything stays. */
  lemma UnquotedPathStays(plugin: string)
    requires IsPluginName(plugin)
    ensures Unregistered([ImportPath(plugin)], plugin) == [ImportPath(plugin)]
  {
    var line := ImportPath(plugin);
    NameLacks(plugin, '"');
    NameLacks(plugin, '/');
    NameLacks(plugin, '.');
    RootPairs();
    LastLacks(plugin, '/');
    NoPairIn(plugin, '/', '/');
    NoPairIn(plugin, '.', 'R');
    hide IsPluginName;
    HasCharConcat(IMPORT_ROOT, plugin, '"');
    PairConcat(IMPORT_ROOT, plugin, '/', '/');
    PairConcat(IMPORT_ROOT, plugin, '.', 'R');
    hide HasChar, HasPair;
    ContainsChar(line, '"');
    StartsNothing(line, plugin);
    hide Contains, StartsRegistration, ImportPath;
    NothingGoes([line], plugin);
  }

  lemma RootPairs()
    ensures !HasPair(IMPORT_ROOT, '/', '/') && !HasPair(IMPORT_ROOT, '.', 'R') && !HasChar(IMPORT_ROOT, '"')
    ensures IMPORT_ROOT[|IMPORT_ROOT| - 1] == '/'
  {
  }
}
