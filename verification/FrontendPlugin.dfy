/**
 Adding a plugin to, and removing it from, the TypeScript entry file
 (internal/server/upload.go, acting on web/src/main.ts).
 */
module FrontendPlugin {
  import opened Common
  import opened SourceText

  const PLUGIN_IMPORT := "import '@/plugins/"
  const ICONS_IMPORT := "import '@element-plus/icons-vue'"
  const DEFAULT_PLACE: nat := 14

  function ImportLine(plugin: string): string {
    PLUGIN_IMPORT + plugin + "'"
  }

  predicate Mentions(lines: seq<string>, plugin: string) {
    exists i | 0 <= i < |lines| :: Contains(lines[i], ImportLine(plugin))
  }

  predicate IsAnchor(line: string) {
    Contains(line, PLUGIN_IMPORT) || Contains(line, ICONS_IMPORT)
  }

  /** An empty line right behind an import. */
  predicate EndsImports(lines: seq<string>, i: nat)
    requires i < |lines|
  {
    TrimSpace(lines[i]) == "" && 0 < i && Contains(lines[i - 1], "import")
  }

  /** `i` is the place behind the last anchor, or else the first end of imports, or else the default. */
  predicate IsPlace(lines: seq<string>, i: nat) {
    if exists j | 0 <= j < |lines| :: IsAnchor(lines[j]) then
      && 0 < i <= |lines| && IsAnchor(lines[i - 1])
      && forall j | i <= j < |lines| :: !IsAnchor(lines[j])
    else if exists j | 0 <= j < |lines| :: EndsImports(lines, j) then
      && i < |lines| && EndsImports(lines, i)
      && forall j | 0 <= j < i :: !EndsImports(lines, j)
    else i == DEFAULT_PLACE
  }

  lemma PlaceUnique(lines: seq<string>, i: nat, j: nat)
    requires IsPlace(lines, i) && IsPlace(lines, j)
    ensures i == j
  {
    hide Contains, TrimSpace;
    if exists k | 0 <= k < |lines| :: IsAnchor(lines[k]) {
      assert IsAnchor(lines[i - 1]) && IsAnchor(lines[j - 1]);
    }
  }

  method FindPlace(lines: seq<string>) returns (place: nat)
    ensures IsPlace(lines, place)
  {
    hide Contains, TrimSpace;
    var i := |lines| - 1;
    while 0 <= i
      invariant -1 <= i < |lines|
      invariant forall j | i < j < |lines| :: !IsAnchor(lines[j])
    {
      if Contains(lines[i], PLUGIN_IMPORT) || Contains(lines[i], ICONS_IMPORT) {
        assert IsAnchor(lines[i]);
        return i + 1;
      }
      i := i - 1;
    }
    for k := 0 to |lines|
      invariant forall j | 0 <= j < k :: !EndsImports(lines, j)
    {
      if TrimSpace(lines[k]) == "" && 0 < k && Contains(lines[k - 1], "import") {
        assert EndsImports(lines, k);
        return k;
      }
    }
    return DEFAULT_PLACE;
  }

  /** None stands for the run-time panic of slicing past the end of the lines. */
  method Register(text: seq<string>, plugin: string) returns (lines: Option<seq<string>>)
    ensures Mentions(text, plugin) ==> lines == Some(text)
    ensures !Mentions(text, plugin) && lines.Some? ==>
              exists place: nat :: place <= |text| && IsPlace(text, place)
                                   && lines.value == text[..place] + [ImportLine(plugin)] + text[place..]
    // The panic: no import to go by, and too few lines for the default place.
    ensures lines.None? <==>
              && !Mentions(text, plugin)
              && |text| < DEFAULT_PLACE
              && (forall j | 0 <= j < |text| :: !IsAnchor(text[j]))
              && (forall j | 0 <= j < |text| :: !EndsImports(text, j))
  {
    hide Contains, TrimSpace, ImportLine;
    for i := 0 to |text|
      invariant !Mentions(text[..i], plugin)
    {
      if Contains(text[i], ImportLine(plugin)) {
        return Some(text);
      }
      assert text[..i + 1] == text[..i] + [text[i]];
    }
    assert text[..|text|] == text;
    var place := FindPlace(text);
    if |text| < place {
      return None;
    }
    return Some(text[..place] + [ImportLine(plugin)] + text[place..]);
  }

  /** The lines that do not import the plugin. */
  function Unregistered(lines: seq<string>, plugin: string): seq<string> {
    if lines == [] then []
    else if Contains(lines[0], ImportLine(plugin)) then Unregistered(lines[1..], plugin)
    else [lines[0]] + Unregistered(lines[1..], plugin)
  }

  method Unregister(lines: seq<string>, plugin: string) returns (filtered: seq<string>)
    ensures filtered == Unregistered(lines, plugin)
  {
    filtered := [];
    assert lines[0..] == lines;
    for i := 0 to |lines|
      invariant filtered + Unregistered(lines[i..], plugin) == Unregistered(lines, plugin)
    {
      assert lines[i..][1..] == lines[i + 1..];
      if Contains(lines[i], ImportLine(plugin)) {
        continue;
      }
      assert filtered + ([lines[i]] + Unregistered(lines[i + 1..], plugin))
          == (filtered + [lines[i]]) + Unregistered(lines[i + 1..], plugin);
      filtered := filtered + [lines[i]];
    }
  }

  lemma {:induction false} UnregisteredConcat(a: seq<string>, b: seq<string>, plugin: string)
    ensures Unregistered(a + b, plugin) == Unregistered(a, plugin) + Unregistered(b, plugin)
  {
    hide Contains, ImportLine;
    if a == [] {
      assert a + b == b;
    } else {
      assert (a + b)[1..] == a[1..] + b && (a + b)[0] == a[0];
      UnregisteredConcat(a[1..], b, plugin);
    }
  }

  lemma {:induction false} UnregisteredUnchanged(lines: seq<string>, plugin: string)
    requires !Mentions(lines, plugin)
    ensures Unregistered(lines, plugin) == lines
  {
    hide Contains, ImportLine;
    if lines != [] {
      assert forall i | 0 <= i < |lines[1..]| :: lines[1..][i] == lines[i + 1];
      UnregisteredUnchanged(lines[1..], plugin);
    }
  }

  /**
   Wherever the import line was put, unregistering restores the lines, and
   registering again finds the line and changes nothing.
   */
  lemma UnregisterUndoesInsertion(lines: seq<string>, place: nat, plugin: string)
    requires place <= |lines| && !Mentions(lines, plugin)
    ensures var after := lines[..place] + [ImportLine(plugin)] + lines[place..];
            Unregistered(after, plugin) == lines && Mentions(after, plugin)
  {
    hide Contains, ImportLine;
    var line := ImportLine(plugin);
    var a, b := lines[..place], lines[place..];
    assert lines == a + b;
    assert !Mentions(a, plugin) && !Mentions(b, plugin) by {
      assert forall i | 0 <= i < |b| :: b[i] == lines[place + i];
      assert forall i | 0 <= i < |a| :: a[i] == lines[i];
    }
    ContainsItself(line);
    assert (a + [line] + b)[place] == line;
    LineGoes(a, line, b, plugin);
  }

  lemma LineGoes(a: seq<string>, line: string, b: seq<string>, plugin: string)
    requires !Mentions(a, plugin) && !Mentions(b, plugin) && Contains(line, ImportLine(plugin))
    ensures Unregistered(a + [line] + b, plugin) == a + b
  {
    hide Contains, ImportLine, Mentions, Unregistered;
    UnregisteredConcat(a + [line], b, plugin);
    UnregisteredConcat(a, [line], plugin);
    UnregisteredUnchanged(a, plugin);
    UnregisteredUnchanged(b, plugin);
    SingleGoes(line, plugin);
  }

  lemma ContainsItself(s: string)
    ensures Contains(s, s)
  {
    assert OccursAt(s, s, 0);
  }

  lemma SingleGoes(line: string, plugin: string)
    requires Contains(line, ImportLine(plugin))
    ensures Unregistered([line], plugin) == []
  {
    assert [line][1..] == [];
  }

  // ----- other plugins -----

  /** The import line tells the plugin, and no other plugin's line holds it. */
  lemma ImportLineExact(other: string, plugin: string)
    requires !HasChar(other, '\'') && !HasChar(plugin, '\'')
    ensures Contains(ImportLine(other), ImportLine(plugin)) <==> other == plugin
  {
    if other == plugin {
      ContainsItself(ImportLine(plugin));
    }
    var line, pat := ImportLine(other), ImportLine(plugin);
    Quotes(other);
    Quotes(plugin);
    hide HasChar, ImportLine;
    if i: nat :| i <= |line| && OccursAt(line, pat, i) {
      assert pat[7] == line[i..i + |pat|][7] == line[i + 7];
      assert pat[|pat| - 1] == line[i..i + |pat|][|pat| - 1] == line[i + |pat| - 1];
      assert pat == line;
      NameOf(other);
      NameOf(plugin);
    }
  }

  /** Quotes stand in front of the path and at the end only. */
  lemma Quotes(plugin: string)
    requires !HasChar(plugin, '\'')
    ensures var line := ImportLine(plugin);
            && 18 < |line| && line[7] == line[|line| - 1] == '\''
            && forall i | 0 <= i < |line| && line[i] == '\'' :: i == 7 || i == |line| - 1
  {
    var line := ImportLine(plugin);
    assert forall i | 0 <= i < |PLUGIN_IMPORT| :: line[i] == PLUGIN_IMPORT[i];
    assert forall i | |PLUGIN_IMPORT| <= i < |line| - 1 :: line[i] == plugin[i - |PLUGIN_IMPORT|];
  }

  lemma NameOf(plugin: string)
    ensures var line := ImportLine(plugin); 18 < |line| && line[18..|line| - 1] == plugin
  {
  }

  /** Unregistering a plugin leaves the import of another one alone, exactly if it is another one. */
  lemma NeighbourStays(lines: seq<string>, place: nat, other: string, plugin: string)
    requires place <= |lines| && !Mentions(lines, plugin) && !HasChar(other, '\'') && !HasChar(plugin, '\'')
    ensures var after := lines[..place] + [ImportLine(other)] + lines[place..];
            Unregistered(after, plugin) == after <==> other != plugin
  {
    var after := lines[..place] + [ImportLine(other)] + lines[place..];
    ImportLineExact(other, plugin);
    hide Contains, ImportLine, HasChar;
    if other == plugin {
      UnregisterUndoesInsertion(lines, place, plugin);
      assert |after| == |lines| + 1;
    } else {
      forall i | 0 <= i < |after|
        ensures !Contains(after[i], ImportLine(plugin))
      {
        if i < place {
          assert after[i] == lines[i];
        } else if place < i {
          assert after[i] == lines[i - 1];
        }
      }
      UnregisteredUnchanged(after, plugin);
    }
  }
}
