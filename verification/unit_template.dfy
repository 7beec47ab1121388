/** The check of the unit template, line by line, and what it says about the whole text. */
module UnitTemplate {
  import opened Wrappers
  import opened Blanks
  import opened SystemdQuote

  datatype Key = Key(section: string, name: string)

  const DESCRIPTION := Key("Unit", "Description")
  const EXEC := Key("Service", "ExecStart")

  const KEYS: seq<Key> := [
    Key("Unit", "After"), Key("Service", "Type"), Key("Service", "WorkingDirectory"), EXEC, Key("Service", "Restart"),
    Key("Service", "RestartSec"), Key("Service", "NoNewPrivileges"), Key("Service", "UMask"), Key("Install", "WantedBy")
  ]

  /** The value each key must have; None for other keys. */
  function Wanted(k: Key): Option<string> {
    if k == Key("Unit", "After") then Some("network.target")
    else if k == Key("Service", "Type") then Some("simple")
    else if k == Key("Service", "WorkingDirectory") then Some("/")
    else if k == EXEC then Some(EXEC_START)
    else if k == Key("Service", "Restart") then Some("on-failure")
    else if k == Key("Service", "RestartSec") then Some("5s")
    else if k == Key("Service", "NoNewPrivileges") then Some("true")
    else if k == Key("Service", "UMask") then Some("0077")
    else if k == Key("Install", "WantedBy") then Some("default.target")
    else None
  }

  // ---- The lines ----

  predicate Header(line: string) {
    line == "[Unit]" || line == "[Service]" || line == "[Install]"
  }

  /** Neither empty nor a comment, once trimmed. */
  predicate Counts(line: string) {
    line != "" && line[0] != '#'
  }

  /** The section that the lines lead to. */
  function Section(lines: seq<string>): string {
    if lines == [] then ""
    else
      var line := Trim(lines[|lines| - 1]);
      if Header(line) then line[1..|line| - 1] else Section(lines[..|lines| - 1])
  }

  /** Line i holds an entry, if it is in order. */
  predicate Entry(lines: seq<string>, i: nat)
    requires i < |lines|
  {
    Counts(Trim(lines[i])) && !Header(Trim(lines[i]))
  }

  function KeyOf(lines: seq<string>, i: nat): Key
    requires i < |lines|
  {
    var line := Trim(lines[i]);
    Key(Section(lines[..i]), line[..Position(line, '=')])
  }

  /** The entry has a name, and the value that its key must have. */
  predicate Proper(lines: seq<string>, i: nat)
    requires i < |lines|
  {
    var line := Trim(lines[i]);
    var equal := Position(line, '=');
    && 0 < equal < |line|
    && if KeyOf(lines, i) == DESCRIPTION then line[equal + 1..] != ""
       else Wanted(KeyOf(lines, i)) == Some(line[equal + 1..])
  }

  predicate AllProper(lines: seq<string>, n: nat)
    requires n <= |lines|
  {
    forall i | 0 <= i < n && Entry(lines, i) :: Proper(lines, i)
  }

  /** No key occurs twice. */
  predicate Once(lines: seq<string>, n: nat)
    requires n <= |lines|
  {
    forall i, j | 0 <= i < j < n && Entry(lines, i) && Entry(lines, j) :: KeyOf(lines, i) != KeyOf(lines, j)
  }

  predicate Has(lines: seq<string>, n: nat, k: Key)
    requires n <= |lines|
  {
    exists i :: 0 <= i < n && Entry(lines, i) && KeyOf(lines, i) == k
  }

  /** Comments and empty lines are no entries, and change no section. */
  lemma CommentsDoNotCount(lines: seq<string>, i: nat)
    requires i < |lines| && (Trim(lines[i]) == "" || Trim(lines[i])[0] == '#')
    ensures !Entry(lines, i) && Section(lines[..i + 1]) == Section(lines[..i])
  {
    SectionNext(lines, i);
  }

  lemma SectionNext(lines: seq<string>, i: nat)
    requires i < |lines|
    ensures Section(lines[..i + 1]) ==
      if Header(Trim(lines[i])) then Trim(lines[i])[1..|Trim(lines[i])| - 1] else Section(lines[..i])
  {
    assert lines[..i + 1][..i] == lines[..i];
  }

  /** validateTemplate: it accepts exactly the templates whose entries are proper, with every key once and no
      required one missing. */
  method ValidateTemplate(lines: seq<string>) returns (ok: bool)
    ensures ok <==> AllProper(lines, |lines|) && Once(lines, |lines|) && forall k | k in KEYS :: Has(lines, |lines|, k)
  {
    hide Trim, Wanted, Section;
    var found: set<Key> := {};
    var section := "";
    assert lines[..0] == [] && Section([]) == "" by { NoSection(); }
    for i := 0 to |lines|
      invariant section == Section(lines[..i])
      invariant AllProper(lines, i) && Once(lines, i)
      invariant forall k :: k in found <==> Has(lines, i, k)
    {
      SectionNext(lines, i);
      var line := Trim(lines[i]);
      if !Counts(line) {
        assert !Header(line);
        continue;
      }
      if Header(line) {
        section := line[1..|line| - 1];
        continue;
      }
      assert Entry(lines, i);
      var equal := Position(line, '=');
      var key := Key(section, line[..equal]);
      assert key == KeyOf(lines, i);
      if equal == 0 || equal == |line| || key in found { return false; }
      var value := line[equal + 1..];
      if if key == DESCRIPTION then value == "" else Wanted(key) != Some(value) {
        assert !Proper(lines, i);
        return false;
      }
      assert Proper(lines, i);
      found := found + {key};
    }
    assert lines[..|lines|] == lines;
    ok := forall k | k in KEYS :: k in found;
  }

  lemma NoSection()
    ensures Section([]) == ""
  {
  }

  // ---- The template of the repository ----

  function Line(name: string, value: string): string {
    name + ("=" + value)
  }

  function Shipped(): (lines: seq<string>)
    ensures |lines| == 16
  {
    ["[Unit]",
     Line("Description", "Agent Memory Fabric local host administration"),
     Line("After", "network.target"),
     "",
     "[Service]",
     Line("Type", "simple"),
     Line("WorkingDirectory", "/"),
     Line("ExecStart", "@NODE@ @ENTRY@ --config @CONFIG@"),
     Line("Restart", "on-failure"),
     Line("RestartSec", "5s"),
     Line("NoNewPrivileges", "true"),
     Line("UMask", "0077"),
     "",
     "[Install]",
     Line("WantedBy", "default.target"),
     ""]
  }

  lemma {:induction false} PositionAt(name: string, value: string)
    requires '=' !in name
    ensures Position(name + ("=" + value), '=') == |name|
  {
    var s := name + ("=" + value);
    if name != "" {
      assert name[0] in name && s[1..] == name[1..] + ("=" + value);
      PositionAt(name[1..], value);
    }
  }

  predicate NameTidy(name: string) {
    name != "" && '=' !in name && name[0] != '#' && name[0] != '[' && !Blank(name[0])
  }

  /** The entry is read as it is written, and its value is the one it must have. */
  predicate Tidy(k: Key, value: string) {
    && NameTidy(k.name) && value != "" && !Blank(value[|value| - 1]) && (k == DESCRIPTION || Wanted(k) == Some(value))
  }

  /** A line with this entry, in this section. */
  lemma EntryIs(lines: seq<string>, i: nat, k: Key, value: string)
    requires i < |lines| && lines[i] == Line(k.name, value) && Section(lines[..i]) == k.section && Tidy(k, value)
    ensures Entry(lines, i) && KeyOf(lines, i) == k
    ensures Proper(lines, i)
  {
    hide Wanted, Section, Blank, Position, Trim;
    var line := lines[i];
    LineIs(k, value);
    TrimKeeps(line);
    PositionAt(k.name, value);
    hide Line, Tidy;
  }

  lemma LineIs(k: Key, value: string)
    requires Tidy(k, value)
    ensures var line, n := Line(k.name, value), |k.name|;
      && line == k.name + ("=" + value) && n < |line| && line[..n] == k.name && line[n + 1..] == value
      && !Blank(line[0]) && !Blank(line[|line| - 1]) && line[0] != '#' && line[0] != '['
      && (k == DESCRIPTION || Wanted(k) == Some(value)) && value != "" && n > 0 && '=' !in k.name
  {
    hide Blank, Wanted;
    var line := Line(k.name, value);
    assert line[0] == k.name[0] && line[|line| - 1] == value[|value| - 1];
  }

  lemma HeaderIs(lines: seq<string>, i: nat, section: string)
    requires i < |lines| && Header(lines[i]) && lines[i] == "[" + section + "]"
    ensures !Entry(lines, i) && Section(lines[..i + 1]) == section
  {
    TrimKeeps(lines[i]);
    SectionNext(lines, i);
  }

  /** Any other line leaves the section as it is. */
  lemma SameSection(lines: seq<string>, i: nat)
    requires i < |lines| && (lines[i] == "" || (lines[i][0] != '[' && !Blank(lines[i][0])))
    requires lines[i] == "" || !Blank(lines[i][|lines[i]| - 1])
    ensures Section(lines[..i + 1]) == Section(lines[..i])
    ensures lines[i] == "" ==> !Entry(lines, i)
  {
    hide Section;
    TrimKeeps(lines[i]);
    SectionNext(lines, i);
  }

  /** Where the entries of the shipped template stand. */
  function ShippedKey(i: nat): Option<Key> {
    match i
    case 1 => Some(DESCRIPTION)
    case 2 => Some(Key("Unit", "After"))
    case 5 => Some(Key("Service", "Type"))
    case 6 => Some(Key("Service", "WorkingDirectory"))
    case 7 => Some(EXEC)
    case 8 => Some(Key("Service", "Restart"))
    case 9 => Some(Key("Service", "RestartSec"))
    case 10 => Some(Key("Service", "NoNewPrivileges"))
    case 11 => Some(Key("Service", "UMask"))
    case 14 => Some(Key("Install", "WantedBy"))
    case _ => None
  }

  function ShippedSection(i: nat): string {
    if i == 0 then "" else if i <= 4 then "Unit" else if i <= 13 then "Service" else "Install"
  }

  /** Line i is an entry if the template has one there, and then the one it should be. */
  predicate InOrder(i: nat)
    requires i < 16
  {
    && (Entry(Shipped(), i) <==> ShippedKey(i).Some?)
    && (ShippedKey(i).Some? ==> KeyOf(Shipped(), i) == ShippedKey(i).value && Proper(Shipped(), i))
  }

  lemma OtherLine(i: nat)
    requires i in {0, 3, 4, 12, 13, 15} && Section(Shipped()[..i]) == ShippedSection(i)
    ensures Section(Shipped()[..i + 1]) == ShippedSection(i + 1) && InOrder(i)
  {
    hide Section, Trim, Entry, KeyOf, Proper, Line;
    match i
    case 0 => HeaderIs(Shipped(), 0, "Unit");
    case 4 => HeaderIs(Shipped(), 4, "Service");
    case 13 => HeaderIs(Shipped(), 13, "Install");
    case _ => SameSection(Shipped(), i);
  }

  /** The value of an entry of the shipped template. */
  function ShippedValue(i: nat): string {
    match i
    case 1 => "Agent Memory Fabric local host administration"
    case 2 => "network.target"
    case 5 => "simple"
    case 6 => "/"
    case 7 => "@NODE@ @ENTRY@ --config @CONFIG@"
    case 8 => "on-failure"
    case 9 => "5s"
    case 10 => "true"
    case 11 => "0077"
    case 14 => "default.target"
    case _ => ""
  }

  lemma ShippedIsTidy(i: nat)
    requires ShippedKey(i).Some?
    ensures Tidy(ShippedKey(i).value, ShippedValue(i))
  {
    ShippedWanted(i);
    ShippedName(i);
    assert ShippedValue(i) != "" && !Blank(ShippedValue(i)[|ShippedValue(i)| - 1]);
    hide Wanted, Blank, ShippedKey, ShippedValue;
  }

  lemma EarlyName(i: nat)
    requires ShippedKey(i).Some? && i <= 6
    ensures NameTidy(ShippedKey(i).value.name)
  {
  }

  lemma MiddleName(i: nat)
    requires ShippedKey(i).Some? && 7 <= i <= 9
    ensures NameTidy(ShippedKey(i).value.name)
  {
  }

  lemma LateName(i: nat)
    requires ShippedKey(i).Some? && i >= 10
    ensures NameTidy(ShippedKey(i).value.name)
  {
  }

  lemma ShippedName(i: nat)
    requires ShippedKey(i).Some?
    ensures NameTidy(ShippedKey(i).value.name)
  {
    hide *;
    if i <= 6 { EarlyName(i); } else if i <= 9 { MiddleName(i); } else { LateName(i); }
  }

  lemma ShippedWanted(i: nat)
    requires ShippedKey(i).Some?
    ensures ShippedKey(i).value == DESCRIPTION || Wanted(ShippedKey(i).value) == Some(ShippedValue(i))
  {
  }

  lemma ShippedIsWritten(i: nat)
    requires i < 16 && ShippedKey(i).Some?
    ensures Shipped()[i] == Line(ShippedKey(i).value.name, ShippedValue(i))
    ensures ShippedSection(i) == ShippedSection(i + 1) == ShippedKey(i).value.section
  {
    hide Line;
  }

  lemma EntryLine(i: nat)
    requires i < 16 && ShippedKey(i).Some? && Section(Shipped()[..i]) == ShippedSection(i)
    ensures Section(Shipped()[..i + 1]) == ShippedSection(i + 1) && InOrder(i)
  {
    ShippedIsTidy(i);
    ShippedIsWritten(i);
    hide *;
    EntryAt(i, ShippedKey(i).value, ShippedValue(i));
    AtIsInOrder(i);
  }

  lemma AtIsInOrder(i: nat)
    requires i < 16 && ShippedKey(i).Some? && Entry(Shipped(), i) && KeyOf(Shipped(), i) == ShippedKey(i).value
    requires Proper(Shipped(), i)
    ensures InOrder(i)
  {
    hide Entry, KeyOf, Proper, Shipped, ShippedKey;
  }

  lemma NoKey(i: nat)
    requires i < 16 && ShippedKey(i).None?
    ensures i in {0, 3, 4, 12, 13, 15}
  {
  }

  lemma ShippedLine(i: nat)
    requires i < 16 && Section(Shipped()[..i]) == ShippedSection(i)
    ensures Section(Shipped()[..i + 1]) == ShippedSection(i + 1) && InOrder(i)
  {
    hide *;
    if ShippedKey(i).Some? {
      EntryLine(i);
    } else {
      NoKey(i);
      OtherLine(i);
    }
  }

  lemma EntryAt(i: nat, k: Key, value: string)
    requires i < |Shipped()| && Shipped()[i] == Line(k.name, value) && Section(Shipped()[..i]) == k.section
    requires Tidy(k, value)
    ensures Entry(Shipped(), i) && KeyOf(Shipped(), i) == k && Proper(Shipped(), i)
    ensures Section(Shipped()[..i + 1]) == Section(Shipped()[..i])
  {
    EntryIs(Shipped(), i, k, value);
    var line := Shipped()[i];
    assert line[0] == k.name[0] && line[|line| - 1] == value[|value| - 1];
    SameSection(Shipped(), i);
  }

  lemma FirstSection()
    ensures Section(Shipped()[..0]) == ShippedSection(0)
  {
    assert Shipped()[..0] == [];
    NoSection();
  }

  lemma {:induction false} ShippedLines(n: nat)
    requires n <= 16
    ensures Section(Shipped()[..n]) == ShippedSection(n)
    ensures forall i | 0 <= i < n :: InOrder(i)
  {
    hide *;
    if n == 0 {
      FirstSection();
    } else {
      ShippedLines(n - 1);
      ShippedLine(n - 1);
    }
  }

  /** The template in deploy/systemd is accepted. */
  method CheckShipped() returns (ok: bool)
    ensures ok
  {
    hide Entry, KeyOf, Proper, Shipped, ShippedKey;
    ShippedLines(16);
    forall i | 0 <= i < 16 && Entry(Shipped(), i) ensures Proper(Shipped(), i) { assert InOrder(i); }
    forall i, j | 0 <= i < j < 16 && Entry(Shipped(), i) && Entry(Shipped(), j)
      ensures KeyOf(Shipped(), i) != KeyOf(Shipped(), j)
    {
      assert InOrder(i) && InOrder(j);
      KeysDiffer(i, j);
    }
    forall k | k in KEYS ensures Has(Shipped(), 16, k) {
      var i := KeyStands(k);
      assert InOrder(i);
    }
    ok := ValidateTemplate(Shipped());
  }

  lemma KeysDiffer(i: nat, j: nat)
    requires i < j && ShippedKey(i).Some? && ShippedKey(j).Some?
    ensures ShippedKey(i) != ShippedKey(j)
  {
  }

  lemma KeyStands(k: Key) returns (i: nat)
    requires k in KEYS
    ensures i < 16 && ShippedKey(i) == Some(k)
  {
    var j :| 0 <= j < |KEYS| && KEYS[j] == k;
    i := [2, 5, 6, 7, 8, 9, 10, 11, 14][j];
  }

  lemma WantedIsShipped(k: Key, value: string) returns (i: nat)
    requires Wanted(k) == Some(value)
    ensures i < 16 && ShippedKey(i) == Some(k) && ShippedValue(i) == value && k != DESCRIPTION
  {
    assert Key("Unit", "After").name[0] == 'A' && DESCRIPTION.name[0] == 'D';
    i := if k == Key("Unit", "After") then 2 else if k == Key("Service", "Type") then 5
         else if k == Key("Service", "WorkingDirectory") then 6 else if k == EXEC then 7
         else if k == Key("Service", "Restart") then 8 else if k == Key("Service", "RestartSec") then 9
         else if k == Key("Service", "NoNewPrivileges") then 10 else if k == Key("Service", "UMask") then 11 else 14;
  }

  /** An accepted template has, besides the description, only entries of the shipped one, each in its section and with
      its value; and it has all of them. */
  lemma AcceptedIsShipped(lines: seq<string>)
    requires AllProper(lines, |lines|) && forall k | k in KEYS :: Has(lines, |lines|, k)
    ensures forall j | 0 <= j < |lines| && Entry(lines, j) && KeyOf(lines, j) != DESCRIPTION ::
      exists i :: 0 <= i < 16 && SameEntry(lines, j, i)
    ensures forall i | 0 <= i < 16 && ShippedKey(i).Some? && ShippedKey(i).value != DESCRIPTION ::
      exists j :: 0 <= j < |lines| && Entry(lines, j) && SameEntry(lines, j, i)
  {
    hide Wanted, Trim, Section, ShippedKey, ShippedValue, Has, Entry, KeyOf;
    forall j | 0 <= j < |lines| && Entry(lines, j) && KeyOf(lines, j) != DESCRIPTION
      ensures exists i :: 0 <= i < 16 && SameEntry(lines, j, i)
    {
      var i := ProperIsShipped(lines, j);
    }
    forall i | 0 <= i < 16 && ShippedKey(i).Some? && ShippedKey(i).value != DESCRIPTION
      ensures exists j :: 0 <= j < |lines| && Entry(lines, j) && SameEntry(lines, j, i)
    {
      KeyIsRequired(i);
      var j := Holder(lines, ShippedKey(i).value);
      var m := ProperIsShipped(lines, j);
      OneShipped(i, m);
    }
  }

  /** Line j of the template is the entry at line i of the shipped one. */
  predicate SameEntry(lines: seq<string>, j: nat, i: nat)
    requires j < |lines| && i < 16
  {
    ShippedKey(i) == Some(KeyOf(lines, j)) && Trim(lines[j]) == Line(KeyOf(lines, j).name, ShippedValue(i))
  }

  lemma Holder(lines: seq<string>, k: Key) returns (j: nat)
    requires Has(lines, |lines|, k)
    ensures j < |lines| && Entry(lines, j) && KeyOf(lines, j) == k
  {
    hide Entry, KeyOf;
    j :| 0 <= j < |lines| && Entry(lines, j) && KeyOf(lines, j) == k;
  }

  lemma ProperIsShipped(lines: seq<string>, j: nat) returns (i: nat)
    requires j < |lines| && Proper(lines, j) && KeyOf(lines, j) != DESCRIPTION
    ensures i < 16 && SameEntry(lines, j, i)
  {
    hide Wanted, Trim, Section, ShippedKey, ShippedValue;
    var line := Trim(lines[j]);
    var n := Position(line, '=');
    i := WantedIsShipped(KeyOf(lines, j), line[n + 1..]);
    assert line == line[..n] + ("=" + line[n + 1..]);
  }

  lemma KeyIsRequired(i: nat)
    requires ShippedKey(i).Some? && ShippedKey(i).value != DESCRIPTION
    ensures ShippedKey(i).value in KEYS
  {
    var j := if i == 2 then 0 else if i == 14 then 8 else i - 4;
    assert KEYS[j] == ShippedKey(i).value;
  }

  lemma OneShipped(i: nat, m: nat)
    requires ShippedKey(i).Some? && ShippedKey(i) == ShippedKey(m)
    ensures i == m
  {
    if i < m { KeysDiffer(i, m); } else if m < i { KeysDiffer(m, i); }
  }

  // ---- The text ----

  /** The lines joined; a carriage return at the end of a line counts as part of it. */
  function Text(lines: seq<string>): string {
    if lines == [] then ""
    else if |lines| == 1 then lines[0]
    else lines[0] + "\n" + Text(lines[1..])
  }

  lemma {:induction false} TextAround(lines: seq<string>, i: nat) returns (before: string, after: string)
    requires i < |lines|
    ensures Text(lines) == before + (lines[i] + after)
    ensures after == "" || after[0] == '\n'
  {
    if i == 0 {
      before := "";
      if |lines| == 1 {
        after := "";
        assert Text(lines) == "" + (lines[0] + "");
      } else {
        after := "\n" + Text(lines[1..]);
        assert Text(lines) == "" + (lines[0] + after);
      }
    } else {
      before, after := TextAround(lines[1..], i - 1);
      assert lines[1..][i - 1] == lines[i];
      assert lines[0] + "\n" + (before + (lines[i] + after)) == (lines[0] + "\n" + before) + (lines[i] + after);
      before := lines[0] + "\n" + before;
    }
  }

  lemma BlankStops(s: string)
    requires AllBlank(s)
    ensures s == "" || Stops(s[0])
  {
    if s != "" { assert s[0] in s; }
  }

  /** In an accepted template the value of ExecStart stands on a line of its own. */
  lemma ExecLine(lines: seq<string>) returns (i: nat)
    requires AllProper(lines, |lines|) && Has(lines, |lines|, EXEC)
    ensures i < |lines| && Entry(lines, i) && KeyOf(lines, i) == EXEC && Trim(lines[i]) == "ExecStart=" + EXEC_START
  {
    hide Trim, Section;
    i :| 0 <= i < |lines| && Entry(lines, i) && KeyOf(lines, i) == EXEC;
    var line := Trim(lines[i]);
    var equal := Position(line, '=');
    assert Proper(lines, i) && line == line[..equal] + "=" + line[equal + 1..];
    assert line[..equal] == "ExecStart" && EXEC != DESCRIPTION && Wanted(EXEC) == Some(EXEC_START);
    assert "ExecStart" + "=" == "ExecStart=";
  }

  /** So the text splits around that value, and nothing runs into it. */
  lemma AcceptedSplits(lines: seq<string>) returns (before: string, after: string)
    requires AllProper(lines, |lines|) && Has(lines, |lines|, EXEC)
    ensures Text(lines) == before + (EXEC_START + after) && Around(before, after)
  {
    hide Trim, Section, Text, KeyOf, AllProper, Has;
    var i := ExecLine(lines);
    var left, right := TrimSplits(lines[i]);
    var front, back := TextAround(lines, i);
    before, after := front + (left + "ExecStart="), right + back;
    BlankStops(right);
    assert lines[i] == left + ("ExecStart=" + EXEC_START) + right;
    assert front + (left + ("ExecStart=" + EXEC_START) + right + back)
      == front + (left + "ExecStart=") + (EXEC_START + (right + back));
    assert "ExecStart="[9] == '=';
  }

  /** From the template to the unit: a template that is accepted is filled in around the command line, and the last
      check refuses the unit exactly if a path or the text around looks like a placeholder. */
  lemma AcceptedUnit(lines: seq<string>, v: Variables) returns (before: string, after: string)
    requires AllProper(lines, |lines|) && Has(lines, |lines|, EXEC)
    ensures Text(lines) == before + (EXEC_START + after) && Around(before, after)
    ensures RenderUnit(Text(lines), v).None? <==>
      || Unresolved(v.node) || Unresolved(v.entry) || Unresolved(v.config)
      || Unresolved(Render(before, v)) || Unresolved(Render(after, v))
    ensures RenderUnit(Text(lines), v).Some? ==>
      RenderUnit(Text(lines), v).value == Render(before, v) + (Render(EXEC_START, v) + Render(after, v))
  {
    hide Unresolved, Render, RenderUnit, Text, AllProper, Has;
    before, after := AcceptedSplits(lines);
    RefusedExactly(before, after, v);
  }
}
