// Day 16 of aoc2022/day16.py: valves joined by tunnels, a simulation that
// opens valves and walks tunnels for 30 minutes under a simple strategy,
// and the nodes of the tree of possible action sequences.
module Day16 {
  import opened Wrappers
  import opened Seqs
  import Text

  // ---------------------------------------------------------------------
  // Valves and the cave

  /** `ValveInfo`: a valve's position in the input, its name, flow rate and tunnel names. */
  datatype ValveInfo = ValveInfo(id: int, name: string, flowRate: int, tunnels: seq<string>)

  /** `Cave`: the valves in input order and the map from names to ids. */
  datatype Cave = Cave(valves: seq<ValveInfo>, nameToId: map<string, int>)

  /** The two kinds of key `Cave.__getitem__` accepts. */
  datatype Key = Id(id: int) | Name(name: string)

  /** `dict([(valve.name, valve.id) for valve in valves])`: a later valve with the same name wins. */
  function NameIds(valves: seq<ValveInfo>): map<string, int>
  {
    if |valves| == 0 then map[]
    else
      var last := valves[|valves| - 1];
      NameIds(valves[..|valves| - 1])[last.name := last.id]
  }

  /** `Cave.create(valves)`. */
  function Create(valves: seq<ValveInfo>): Cave
  {
    Cave(valves, NameIds(valves))
  }

  /** `cave[id]`: a list index, negative counting from the end; out of range raises. */
  function AtIndex(cave: Cave, id: int): Option<ValveInfo>
  {
    var i := PyIndex(|cave.valves|, id);
    if i.None? then None else Some(cave.valves[i.value])
  }

  /** `cave[identifier]`: a list index or a name; a bad key raises. */
  function Get(cave: Cave, key: Key): Option<ValveInfo>
  {
    match key
    case Id(id) => AtIndex(cave, id)
    case Name(name) => if name in cave.nameToId then AtIndex(cave, cave.nameToId[name]) else None
  }

  /** Each valve's id is its position, as `solve_p1` numbers the input lines. */
  predicate Indexed(valves: seq<ValveInfo>)
  {
    forall i :: 0 <= i < |valves| ==> valves[i].id == i
  }

  /** A cave as `Cave.create` builds it from numbered valves. */
  predicate WellFormed(cave: Cave)
  {
    Indexed(cave.valves) && cave.nameToId == NameIds(cave.valves)
  }

  /** A name is mapped exactly when some valve has it, and then to the id of the last such valve. */
  lemma {:induction false} NameIdsMeaning(valves: seq<ValveInfo>, name: string)
    ensures name in NameIds(valves) <==> exists i :: 0 <= i < |valves| && valves[i].name == name
    ensures name in NameIds(valves) ==>
      exists i :: 0 <= i < |valves| && valves[i].name == name && NameIds(valves)[name] == valves[i].id &&
        forall j :: i < j < |valves| ==> valves[j].name != name
  {
    if |valves| > 0 {
      var init, last := valves[..|valves| - 1], valves[|valves| - 1];
      NameIdsMeaning(init, name);
      if name != last.name {
        if exists i :: 0 <= i < |valves| && valves[i].name == name {
          var i :| 0 <= i < |valves| && valves[i].name == name;
          assert init[i].name == name;
        }
        if name in NameIds(valves) {
          var i :| 0 <= i < |init| && init[i].name == name && NameIds(init)[name] == init[i].id &&
            forall j :: i < j < |init| ==> init[j].name != name;
          assert valves[i] == init[i];
        }
      } else {
        assert valves[|valves| - 1].name == name;
      }
    }
  }

  /**
   * In a well-formed cave, looking a name up finds a valve with that name
   * whenever some valve has it; looking up a position finds that valve.
   */
  lemma LookupAgrees(cave: Cave, i: int)
    requires WellFormed(cave) && 0 <= i < |cave.valves|
    ensures Get(cave, Id(i)) == Some(cave.valves[i])
    ensures Get(cave, Name(cave.valves[i].name)).Some?
    ensures Get(cave, Name(cave.valves[i].name)).value.name == cave.valves[i].name
  {
    var name := cave.valves[i].name;
    NameIdsMeaning(cave.valves, name);
    var k :| 0 <= k < |cave.valves| && cave.valves[k].name == name && cave.nameToId[name] == cave.valves[k].id &&
      forall j :: k < j < |cave.valves| ==> cave.valves[j].name != name;
    assert cave.valves[k].id == k;
  }

  /** With distinct names, a valve's name finds that very valve. */
  lemma LookupByNameUnique(cave: Cave, i: int)
    requires WellFormed(cave) && 0 <= i < |cave.valves|
    requires forall j, k :: 0 <= j < k < |cave.valves| ==> cave.valves[j].name != cave.valves[k].name
    ensures Get(cave, Name(cave.valves[i].name)) == Some(cave.valves[i])
  {
    var name := cave.valves[i].name;
    NameIdsMeaning(cave.valves, name);
    var k :| 0 <= k < |cave.valves| && cave.valves[k].name == name && cave.nameToId[name] == cave.valves[k].id &&
      forall j :: k < j < |cave.valves| ==> cave.valves[j].name != name;
    assert cave.valves[k].id == k;
  }

  /** Any name a well-formed cave finds is the name of the valve found, at its own position. */
  lemma NamedValve(cave: Cave, name: string)
    requires WellFormed(cave) && Get(cave, Name(name)).Some?
    ensures Get(cave, Name(name)).value.name == name
    ensures 0 <= Get(cave, Name(name)).value.id < |cave.valves|
    ensures Get(cave, Id(Get(cave, Name(name)).value.id)) == Get(cave, Name(name))
  {
    NameIdsMeaning(cave.valves, name);
    var k :| 0 <= k < |cave.valves| && cave.valves[k].name == name && cave.nameToId[name] == cave.valves[k].id &&
      forall j :: k < j < |cave.valves| ==> cave.valves[j].name != name;
    assert cave.valves[k].id == k;
  }

  // ---------------------------------------------------------------------
  // Reading a valve line

  /** The six rewrites `ValveInfo.parse` applies, in order, before splitting on commas. */
  function Normalize(text: string): string
  {
    var t1 := Text.Replace(text, "Valve ", "");
    var t2 := Text.Replace(t1, " has flow rate=", ",");
    var t3 := Text.Replace(t2, "; tunnels lead to valve", ",");
    var t4 := Text.Replace(t3, "; tunnel leads to valve", ",");
    var t5 := Text.Replace(t4, "s ", "");
    Text.Replace(t5, ", ", ",")
  }

  /**
   * `ValveInfo.parse(id, text)`: name, flow rate and tunnels are the comma
   * separated fields of the rewritten line; fewer than two fields or a flow
   * rate that is not an integer raises.
   */
  function ParseValve(id: int, text: string): (r: Option<ValveInfo>)
    ensures r.Some? ==> r.value.id == id
  {
    var parts := Text.Split(Normalize(text), ',');
    if |parts| < 2 then None
    else
      match Text.ParseInt(parts[1])
      case None => None
      case Some(rate) => Some(ValveInfo(id, parts[0], rate, parts[2..]))
  }

  predicate IsUpper(c: char) { 'A' <= c <= 'Z' }

  /** A valve name of the puzzle input: capital letters. */
  predicate IsName(s: string)
  {
    |s| >= 1 && forall i :: 0 <= i < |s| ==> IsUpper(s[i])
  }

  /** The wording before the tunnel list: singular for one tunnel, plural otherwise. */
  function TunnelPhrase(count: nat): string
  {
    if count == 1 then "; tunnel leads to valve " else "; tunnels lead to valves "
  }

  /** A line of the puzzle input describing `v`. */
  function ShowValve(v: ValveInfo): string
  {
    "Valve " + (v.name + (" has flow rate=" + (Text.ShowInt(v.flowRate) +
      (TunnelPhrase(|v.tunnels|) + Text.JoinText(v.tunnels, ", ")))))
  }

  /** Text as `str` writes an integer: digits and a minus sign, not starting with a blank. */
  predicate NumberText(r: string)
  {
    |r| >= 1 && forall i :: 0 <= i < |r| ==> r[i] == '-' || Text.IsDigit(r[i])
  }

  /** A tunnel list: names, commas and blanks, starting with a name. */
  predicate TunnelText(j: string)
  {
    |j| >= 1 && IsUpper(j[0]) && forall i :: 0 <= i < |j| ==> IsUpper(j[i]) || j[i] == ',' || j[i] == ' '
  }

  lemma NumberTextOf(n: int)
    ensures NumberText(Text.ShowInt(n))
  {
    Text.ShowIntEnds(n);
    forall i | 0 <= i < |Text.ShowInt(n)| ensures Text.ShowInt(n)[i] == '-' || Text.IsDigit(Text.ShowInt(n)[i]) {
      var c := Text.ShowInt(n)[i];
      if c != '-' && !Text.IsDigit(c) {
        Text.ShowIntChars(n, c);
      }
    }
  }

  /** Names joined by ", " make a tunnel list. */
  lemma {:induction false} TunnelTextOf(names: seq<string>)
    requires |names| >= 1 && forall i :: 0 <= i < |names| ==> IsName(names[i])
    ensures TunnelText(Text.JoinText(names, ", "))
  {
    if |names| > 1 {
      var rest := Text.JoinText(names[1..], ", ");
      TunnelTextOf(names[1..]);
      var j := names[0] + ", " + rest;
      assert IsName(names[0]);
      forall i | 0 <= i < |j| ensures IsUpper(j[i]) || j[i] == ',' || j[i] == ' ' {
        if i >= |names[0]| + 2 {
          assert j[i] == rest[i - |names[0]| - 2];
        } else if i < |names[0]| {
          assert j[i] == names[0][i];
        }
      }
    }
  }

  lemma NameAvoids(n: string, c: char)
    requires IsName(n) && !IsUpper(c)
    ensures c !in n
  {
  }

  lemma NumberAvoids(r: string, c: char)
    requires NumberText(r) && c != '-' && !Text.IsDigit(c)
    ensures c !in r
  {
  }

  lemma TunnelAvoids(j: string, c: char)
    requires TunnelText(j) && !IsUpper(c) && c != ',' && c != ' '
    ensures c !in j
  {
  }

  /** Removing "Valve " in front. */
  lemma StageValve(n: string, r: string, s: string, j: string)
    requires IsName(n) && NumberText(r) && 'V' !in s && TunnelText(j)
    ensures Text.Replace("Valve " + (n + (" has flow rate=" + (r + (s + j)))), "Valve ", "") ==
      n + (" has flow rate=" + (r + (s + j)))
  {
    var pat, rate := "Valve ", " has flow rate=";
    assert pat[0] == 'V' && pat[1] == 'a' && rate[0] == ' ' && 'V' !in rate;
    var tail := rate + (r + (s + j));
    NameAvoids(n, 'a');
    NumberAvoids(r, 'V');
    TunnelAvoids(j, 'a');
    Text.ReplaceHit(pat, n + tail, "");
    Text.ReplaceNoSecond(n, tail, pat, "");
    Text.ReplaceSkip(rate, r + (s + j), pat, "");
    Text.ReplaceSkip(r, s + j, pat, "");
    Text.ReplaceSkip(s, j, pat, "");
    Text.ReplaceNoSecond(j, "", pat, "");
    assert j + "" == j;
  }

  /** " has flow rate=" becomes a comma. */
  lemma StageRate(n: string, r: string, s: string, j: string)
    requires IsName(n) && NumberText(r) && 'h' !in s && TunnelText(j)
    ensures Text.Replace(n + (" has flow rate=" + (r + (s + j))), " has flow rate=", ",") ==
      n + ("," + (r + (s + j)))
  {
    var pat := " has flow rate=";
    assert pat[0] == ' ' && pat[1] == 'h';
    NameAvoids(n, ' ');
    NumberAvoids(r, ' ');
    TunnelAvoids(j, 'h');
    Text.ReplaceSkip(n, pat + (r + (s + j)), pat, ",");
    Text.ReplaceHit(pat, r + (s + j), ",");
    Text.ReplaceSkip(r, s + j, pat, ",");
    Text.ReplaceNoSecond(s, j, pat, ",");
    Text.ReplaceNoSecond(j, "", pat, ",");
    assert j + "" == j;
  }

  /** A rewrite whose pattern cannot start in the name, the comma or the flow rate passes over them. */
  lemma SkipFields(n: string, r: string, rest: string, pat: string, repl: string)
    requires IsName(n) && NumberText(r) && |pat| > 0
    requires !IsUpper(pat[0]) && pat[0] != ',' && pat[0] != '-' && !Text.IsDigit(pat[0])
    ensures Text.Replace(n + ("," + (r + rest)), pat, repl) == n + ("," + (r + Text.Replace(rest, pat, repl)))
  {
    NameAvoids(n, pat[0]);
    NumberAvoids(r, pat[0]);
    Text.ReplaceSkip(n, "," + (r + rest), pat, repl);
    Text.ReplaceSkip(",", r + rest, pat, repl);
    Text.ReplaceSkip(r, rest, pat, repl);
  }

  /** The plural wording: its first rewrite leaves ",s " in front of the list. */
  lemma PluralWording(j: string)
    requires TunnelText(j)
    ensures Text.Replace("; tunnels lead to valves " + j, "; tunnels lead to valve", ",") == "," + ("s " + j)
  {
    var pat := "; tunnels lead to valve";
    assert "; tunnels lead to valves " + j == pat + ("s " + j);
    TunnelAvoids(j, ';');
    Text.ReplaceHit(pat, "s " + j, ",");
    Text.ReplaceAbsent("s " + j, pat, ",");
  }

  /** The singular wording does not match the plural rewrite. */
  lemma SingularNotPlural(j: string)
    requires TunnelText(j)
    ensures Text.Replace("; tunnel leads to valve " + j, "; tunnels lead to valve", ",") == "; tunnel leads to valve " + j
  {
    var pat, w := "; tunnels lead to valve", " tunnel leads to valve ";
    assert "; tunnel leads to valve " + j == ";" + (w + j);
    var s := ";" + (w + j);
    assert s[8] == ' ' && pat[8] == 's';
    assert s[1..] == w + j;
    TunnelAvoids(j, ';');
    Text.ReplaceAbsent(w + j, pat, ",");
  }

  /** The singular wording: its rewrite leaves ", " in front of the list. */
  lemma SingularWording(j: string)
    requires TunnelText(j)
    ensures Text.Replace("; tunnel leads to valve " + j, "; tunnel leads to valve", ",") == "," + (" " + j)
  {
    var pat := "; tunnel leads to valve";
    assert "; tunnel leads to valve " + j == pat + (" " + j);
    TunnelAvoids(j, ';');
    Text.ReplaceHit(pat, " " + j, ",");
    Text.ReplaceAbsent(" " + j, pat, ",");
  }

  /** Both "; tunnel..." rewrites on the plural wording. */
  lemma StageWordingPlural(n: string, r: string, j: string)
    requires IsName(n) && NumberText(r) && TunnelText(j)
    ensures var x3 := Text.Replace(n + ("," + (r + ("; tunnels lead to valves " + j))), "; tunnels lead to valve", ",");
      Text.Replace(x3, "; tunnel leads to valve", ",") == n + ("," + (r + ("," + ("s " + j))))
  {
    var p3, p4 := "; tunnels lead to valve", "; tunnel leads to valve";
    assert p3[0] == ';' && p4[0] == ';';
    SkipFields(n, r, "; tunnels lead to valves " + j, p3, ",");
    PluralWording(j);
    SkipFields(n, r, "," + ("s " + j), p4, ",");
    TunnelAvoids(j, ';');
    Text.ReplaceAbsent("," + ("s " + j), p4, ",");
  }

  /** Both "; tunnel..." rewrites on the singular wording. */
  lemma StageWordingSingular(n: string, r: string, j: string)
    requires IsName(n) && NumberText(r) && TunnelText(j)
    ensures var x3 := Text.Replace(n + ("," + (r + ("; tunnel leads to valve " + j))), "; tunnels lead to valve", ",");
      Text.Replace(x3, "; tunnel leads to valve", ",") == n + ("," + (r + ("," + (" " + j))))
  {
    var p3, p4 := "; tunnels lead to valve", "; tunnel leads to valve";
    assert p3[0] == ';' && p4[0] == ';';
    SkipFields(n, r, "; tunnel leads to valve " + j, p3, ",");
    SingularNotPlural(j);
    SkipFields(n, r, "; tunnel leads to valve " + j, p4, ",");
    SingularWording(j);
  }

  /** "s " is dropped from the plural wording. */
  lemma StageDropPlural(n: string, r: string, j: string)
    requires IsName(n) && NumberText(r) && TunnelText(j)
    ensures Text.Replace(n + ("," + (r + ("," + ("s " + j)))), "s ", "") == n + ("," + (r + ("," + j)))
  {
    var pat := "s ";
    assert pat[0] == 's';
    var x := "," + (pat + j);
    assert Text.Replace(pat + j, pat, "") == j by {
      Text.ReplaceHit(pat, j, "");
      TunnelAvoids(j, 's');
      Text.ReplaceAbsent(j, pat, "");
      assert "" + j == j;
    }
    assert Text.Replace(x, pat, "") == "," + j by {
      Text.ReplaceSkip(",", pat + j, pat, "");
    }
    SkipFields(n, r, x, pat, "");
  }

  /** The singular wording holds no "s ". */
  lemma StageDropSingular(n: string, r: string, j: string)
    requires IsName(n) && NumberText(r) && TunnelText(j)
    ensures Text.Replace(n + ("," + (r + ("," + (" " + j)))), "s ", "") == n + ("," + (r + ("," + (" " + j))))
  {
    var pat := "s ";
    assert pat[0] == 's';
    SkipFields(n, r, "," + (" " + j), pat, "");
    TunnelAvoids(j, 's');
    Text.ReplaceAbsent("," + (" " + j), pat, "");
  }

  /** ", " in front of the flow rate and the comma are left alone. */
  lemma CommasFront(n: string, r: string, tail: string)
    requires IsName(n) && NumberText(r)
    ensures Text.Replace(n + ("," + (r + tail)), ", ", ",") == n + ("," + (r + Text.Replace(tail, ", ", ",")))
  {
    var pat := ", ";
    assert pat[0] == ',' && pat[1] == ' ';
    NameAvoids(n, ',');
    NumberAvoids(r, ',');
    assert (r + tail)[0] == r[0];
    Text.ReplaceSkip(n, "," + (r + tail), pat, ",");
    Text.ReplaceNoSecond(",", r + tail, pat, ",");
    Text.ReplaceSkip(r, tail, pat, ",");
  }

  /** Replacing ", " by "," joins the tunnel names on bare commas. */
  lemma CommasJoin(names: seq<string>)
    requires forall i :: 0 <= i < |names| ==> IsName(names[i])
    ensures Text.Replace(Text.JoinText(names, ", "), ", ", ",") == Text.Join(names, ',')
  {
    var pat := ", ";
    assert pat[0] == ',';
    forall i | 0 <= i < |names| ensures pat[0] !in names[i] {
      NameAvoids(names[i], ',');
    }
    Text.ReplaceJoinText(names, pat, ',');
  }

  /** After the plural wording the list follows a bare comma. */
  lemma CommasPlural(j: string)
    requires TunnelText(j)
    ensures Text.Replace("," + j, ", ", ",") == "," + Text.Replace(j, ", ", ",")
  {
    var pat := ", ";
    assert pat[1] == ' ' && ' ' !in ",";
    Text.ReplaceNoSecond(",", j, pat, ",");
  }

  /** After the singular wording the list follows ", ". */
  lemma CommasSingular(j: string)
    requires TunnelText(j)
    ensures Text.Replace("," + (" " + j), ", ", ",") == "," + Text.Replace(j, ", ", ",")
  {
    var pat := ", ";
    assert "," + (" " + j) == pat + j;
    Text.ReplaceHit(pat, j, ",");
  }

  /** The six rewrites turn a valve's line into its name, flow rate and tunnels separated by bare commas. */
  lemma NormalizeShown(v: ValveInfo)
    requires IsName(v.name) && |v.tunnels| >= 1 && forall i :: 0 <= i < |v.tunnels| ==> IsName(v.tunnels[i])
    ensures Normalize(ShowValve(v)) == v.name + ("," + (Text.ShowInt(v.flowRate) + ("," + Text.Join(v.tunnels, ','))))
  {
    var n, r, names := v.name, Text.ShowInt(v.flowRate), v.tunnels;
    var plural := |names| != 1;
    var s := TunnelPhrase(|names|);
    var j := Text.JoinText(names, ", ");
    NumberTextOf(v.flowRate);
    TunnelTextOf(names);
    assert 'V' !in s && 'h' !in s;
    StageValve(n, r, s, j);
    StageRate(n, r, s, j);
    CommasJoin(names);
    if plural {
      StageWordingPlural(n, r, j);
      StageDropPlural(n, r, j);
      CommasFront(n, r, "," + j);
      CommasPlural(j);
    } else {
      StageWordingSingular(n, r, j);
      StageDropSingular(n, r, j);
      CommasFront(n, r, "," + (" " + j));
      CommasSingular(j);
    }
  }

  /** The rewritten line splits into the name, the flow rate and the tunnels. */
  lemma SplitFields(n: string, r: string, names: seq<string>)
    requires IsName(n) && NumberText(r) && |names| >= 1 && forall i :: 0 <= i < |names| ==> IsName(names[i])
    ensures Text.Split(n + ("," + (r + ("," + Text.Join(names, ',')))), ',') == [n, r] + names
  {
    var tail := r + ("," + Text.Join(names, ','));
    SplitRateAndTunnels(r, names);
    NameAvoids(n, ',');
    Text.SplitPrefix(n, tail, ',');
    assert n + [','] + tail == n + ("," + tail);
    assert [n] + ([r] + names) == [n, r] + names;
  }

  /** The flow rate and the tunnels after it split into their fields. */
  lemma SplitRateAndTunnels(r: string, names: seq<string>)
    requires NumberText(r) && |names| >= 1 && forall i :: 0 <= i < |names| ==> IsName(names[i])
    ensures Text.Split(r + ("," + Text.Join(names, ',')), ',') == [r] + names
  {
    var rest := Text.Join(names, ',');
    forall i | 0 <= i < |names| ensures ',' !in names[i] {
      NameAvoids(names[i], ',');
    }
    Text.SplitJoin(names, ',');
    NumberAvoids(r, ',');
    Text.SplitPrefix(r, rest, ',');
    assert r + [','] + rest == r + ("," + rest);
  }

  /**
   * Reading a line written for a valve gives that valve back, for either
   * wording of the tunnel list.
   */
  lemma ParseShowValve(v: ValveInfo)
    requires IsName(v.name) && |v.tunnels| >= 1 && forall i :: 0 <= i < |v.tunnels| ==> IsName(v.tunnels[i])
    ensures ParseValve(v.id, ShowValve(v)) == Some(v)
  {
    var n, r, names := v.name, Text.ShowInt(v.flowRate), v.tunnels;
    NumberTextOf(v.flowRate);
    NormalizeShown(v);
    SplitFields(n, r, names);
    Text.ParseShowInt(v.flowRate);
    assert ([n, r] + names)[2..] == names;
  }

  /** `[ValveInfo.parse(id, line) for id, line in enumerate(lines)]`, before any failure is noticed. */
  function ParsedLines(lines: seq<string>): (r: seq<Option<ValveInfo>>)
    ensures |r| == |lines|
    ensures forall i :: 0 <= i < |lines| ==> r[i] == ParseValve(i, lines[i])
  {
    seq(|lines|, i requires 0 <= i < |lines| => ParseValve(i, lines[i]))
  }

  /** The cave `solve_p1` builds: each line read as a valve whose id is the line's position. */
  function ParseCave(lines: seq<string>): (r: Option<Cave>)
    ensures r.Some? <==> forall i :: 0 <= i < |lines| ==> ParseValve(i, lines[i]).Some?
    ensures r.Some? ==> WellFormed(r.value) && |r.value.valves| == |lines|
  {
    var parsed := ParsedLines(lines);
    match AllSome(parsed)
    case None => None
    case Some(valves) =>
      assert Indexed(valves) by {
        forall i | 0 <= i < |valves| ensures valves[i].id == i {
          assert parsed[i].value == valves[i];
        }
      }
      Some(Create(valves))
  }

  /** The lines of the puzzle input describing `valves`, in order. */
  function ShowLines(valves: seq<ValveInfo>): (r: seq<string>)
    ensures |r| == |valves| && forall i :: 0 <= i < |valves| ==> r[i] == ShowValve(valves[i])
  {
    seq(|valves|, i requires 0 <= i < |valves| => ShowValve(valves[i]))
  }

  /** Reading the lines written for numbered valves builds the cave of those valves. */
  lemma ParseShowCave(valves: seq<ValveInfo>)
    requires Indexed(valves)
    requires forall i :: 0 <= i < |valves| ==> IsName(valves[i].name) && |valves[i].tunnels| >= 1
    requires forall i, k :: 0 <= i < |valves| && 0 <= k < |valves[i].tunnels| ==> IsName(valves[i].tunnels[k])
    ensures ParseCave(ShowLines(valves)) == Some(Create(valves))
  {
    var lines := ShowLines(valves);
    forall i | 0 <= i < |valves| ensures ParseValve(i, lines[i]) == Some(valves[i]) {
      ParseShowValve(valves[i]);
    }
    var parsed := ParsedLines(lines);
    assert AllSome(parsed).value == valves;
  }

  // ---------------------------------------------------------------------
  // The simulation

  /** `OpenValve()` and `MoveTo(target)`. */
  datatype Action = OpenValve | MoveTo(target: int)

  /** The fields of a `Simulation` other than its cave. */
  datatype SimState = SimState(location: int, openValves: set<int>, flowRate: int,
                               pressureRelieved: int, timeLeft: int)

  /** The flow of the valve at a position, 0 where there is none. */
  function Rate(cave: Cave, id: int): int
  {
    match Get(cave, Id(id))
    case Some(v) => v.flowRate
    case None => 0
  }

  /** Some member of a nonempty set of ids. */
  ghost function PickId(ids: set<int>): (x: int)
    requires exists y :: y in ids
    ensures x in ids
  {
    var x :| x in ids; x
  }

  /** The total flow of a set of valves. */
  ghost function OpenFlow(cave: Cave, ids: set<int>): int
    decreases ids
  {
    if exists y :: y in ids then Rate(cave, PickId(ids)) + OpenFlow(cave, ids - {PickId(ids)})
    else 0
  }

  /** The total does not depend on which valve is taken out first. */
  lemma {:induction false} OpenFlowRemove(cave: Cave, ids: set<int>, y: int)
    requires y in ids
    ensures OpenFlow(cave, ids) == Rate(cave, y) + OpenFlow(cave, ids - {y})
    decreases ids
  {
    var x := PickId(ids);
    if x != y {
      var rest := ids - {x} - {y};
      assert rest == ids - {y} - {x};
      OpenFlowRemove(cave, ids - {x}, y);
      OpenFlowRemove(cave, ids - {y}, x);
    }
  }

  /** Opening one more valve adds its flow. */
  lemma OpenFlowAdd(cave: Cave, ids: set<int>, y: int)
    requires y !in ids
    ensures OpenFlow(cave, ids + {y}) == OpenFlow(cave, ids) + Rate(cave, y)
  {
    OpenFlowRemove(cave, ids + {y}, y);
    assert ids + {y} - {y} == ids;
  }

  /** `flow_rate` is the total flow of the open valves. */
  ghost predicate FlowMatches(cave: Cave, s: SimState)
  {
    s.flowRate == OpenFlow(cave, s.openValves)
  }

  /**
   * `execute_action`: opening the valve here adds it to the open set and
   * its flow to the flow rate, unless it is already open (only a warning);
   * moving is allowed only along a tunnel from here.  A location or target
   * that is not a valve, or a move with no tunnel, raises.
   */
  function Act(cave: Cave, s: SimState, action: Action): Option<SimState>
  {
    match Get(cave, Id(s.location))
    case None => None
    case Some(here) =>
      match action
      case OpenValve =>
        if here.id !in s.openValves then
          Some(s.(openValves := s.openValves + {here.id}, flowRate := s.flowRate + here.flowRate))
        else Some(s)
      case MoveTo(x) =>
        match Get(cave, Id(x))
        case None => None
        case Some(target) => if target.name in here.tunnels then Some(s.(location := x)) else None
  }

  /** `pass_time`: the flow is added to the pressure relieved, a minute passes; true while time is left. */
  function Tick(s: SimState): (SimState, bool)
  {
    var next := s.(pressureRelieved := s.pressureRelieved + s.flowRate, timeLeft := s.timeLeft - 1);
    (next, next.timeLeft > 0)
  }

  /** Opening a closed valve opens it and adds its flow; opening an open valve changes nothing. */
  lemma OpenValveEffect(cave: Cave, s: SimState)
    requires Get(cave, Id(s.location)).Some?
    ensures var here := Get(cave, Id(s.location)).value;
      var r := Act(cave, s, OpenValve);
      && r.Some?
      && (here.id !in s.openValves ==>
            r.value.openValves == s.openValves + {here.id} && r.value.flowRate == s.flowRate + here.flowRate &&
            r.value.location == s.location && r.value.pressureRelieved == s.pressureRelieved &&
            r.value.timeLeft == s.timeLeft)
      && (here.id in s.openValves ==> r.value == s)
  {
  }

  /** A move succeeds exactly along a tunnel from a valve to a valve, and changes only the location. */
  lemma MoveEffect(cave: Cave, s: SimState, x: int)
    ensures Act(cave, s, MoveTo(x)).Some? <==>
      Get(cave, Id(s.location)).Some? && Get(cave, Id(x)).Some? &&
      Get(cave, Id(x)).value.name in Get(cave, Id(s.location)).value.tunnels
    ensures Act(cave, s, MoveTo(x)).Some? ==> Act(cave, s, MoveTo(x)).value == s.(location := x)
  {
  }

  /** In a well-formed cave every action keeps `flow_rate` equal to the flow of the open valves. */
  lemma ActKeepsFlow(cave: Cave, s: SimState, action: Action)
    requires WellFormed(cave) && FlowMatches(cave, s) && Act(cave, s, action).Some?
    ensures FlowMatches(cave, Act(cave, s, action).value)
  {
    var here := Get(cave, Id(s.location)).value;
    if action.OpenValve? && here.id !in s.openValves {
      var k := PyIndex(|cave.valves|, s.location).value;
      assert here == cave.valves[k] && here.id == k;
      assert Rate(cave, here.id) == here.flowRate;
      OpenFlowAdd(cave, s.openValves, here.id);
    }
  }

  /** A minute adds the flow rate to the pressure and takes one from the time; it goes on while time is left. */
  lemma TickEffect(s: SimState)
    ensures Tick(s).0.pressureRelieved == s.pressureRelieved + s.flowRate
    ensures Tick(s).0.timeLeft == s.timeLeft - 1
    ensures Tick(s).0.(pressureRelieved := s.pressureRelieved, timeLeft := s.timeLeft) == s
    ensures Tick(s).1 <==> s.timeLeft > 1
  {
  }

  /** `Simulation.of_cave`: at valve "AA", nothing open, no flow, nothing relieved, 30 minutes left. */
  function Initial(cave: Cave): Option<SimState>
  {
    match Get(cave, Name("AA"))
    case None => None
    case Some(aa) => Some(SimState(aa.id, {}, 0, 0, 30))
  }

  /** The simulation starts with the flow matching the (empty) set of open valves. */
  lemma InitialFlow(cave: Cave)
    requires Initial(cave).Some?
    ensures FlowMatches(cave, Initial(cave).value)
    ensures Initial(cave).value.timeLeft == 30 && Initial(cave).value.openValves == {}
  {
  }

  /** `Simulation`: a cave and the state of the walk through it. */
  class Simulation {
    const cave: Cave
    var location: int
    var openValves: set<int>
    var flowRate: int
    var pressureRelieved: int
    var timeLeft: int

    function State(): SimState
      reads this
    {
      SimState(location, openValves, flowRate, pressureRelieved, timeLeft)
    }

    /** The flow rate is the open valves' total flow, in a well-formed cave. */
    ghost predicate Valid()
      reads this
    {
      WellFormed(cave) && FlowMatches(cave, State())
    }

    constructor (cave: Cave, start: SimState)
      ensures this.cave == cave && State() == start
    {
      this.cave := cave;
      location := start.location;
      openValves := start.openValves;
      flowRate := start.flowRate;
      pressureRelieved := start.pressureRelieved;
      timeLeft := start.timeLeft;
    }

    /** `here()`: the valve at the current location. */
    function Here(): Option<ValveInfo>
      reads this
    {
      Get(cave, Id(location))
    }

    /** `here_is_open()`. */
    predicate HereIsOpen()
      reads this
    {
      location in openValves
    }

    /** `is_open(valve)`: whether the valve a key names is open; a bad key raises. */
    function IsOpen(valve: Key): (r: Option<bool>)
      reads this
      ensures r.Some? <==> Get(cave, valve).Some?
      ensures r.Some? ==> (r.value <==> Get(cave, valve).value.id in openValves)
    {
      match Get(cave, valve)
      case None => None
      case Some(v) => Some(v.id in openValves)
    }

    /** `execute_action(action)`: false where the source raises, and then nothing has changed. */
    method ExecuteAction(action: Action) returns (ok: bool)
      modifies this
      ensures ok <==> Act(cave, old(State()), action).Some?
      ensures ok ==> State() == Act(cave, old(State()), action).value
      ensures !ok ==> State() == old(State())
      ensures old(Valid()) ==> Valid()
    {
      var here := Here();
      if here.None? {
        return false;
      }
      var h := here.value;
      ghost var before := State();
      match action {
        case OpenValve =>
          if h.id !in openValves {
            openValves := openValves + {h.id};
            flowRate := flowRate + h.flowRate;
          }
        case MoveTo(x) =>
          var target := Get(cave, Id(x));
          if target.None? || target.value.name !in h.tunnels {
            return false;
          }
          location := x;
      }
      if WellFormed(cave) && FlowMatches(cave, before) {
        ActKeepsFlow(cave, before, action);
      }
      return true;
    }

    /** `pass_time()`. */
    method PassTime() returns (more: bool)
      modifies this
      ensures (State(), more) == Tick(old(State()))
      ensures Valid() <==> old(Valid())
    {
      pressureRelieved := pressureRelieved + flowRate;
      timeLeft := timeLeft - 1;
      more := timeLeft > 0;
    }
  }

  /** `Simulation.of_cave(cave)`: null where the cave has no valve "AA". */
  method OfCave(cave: Cave) returns (sim: Simulation?)
    ensures sim == null <==> Initial(cave).None?
    ensures sim != null ==> fresh(sim) && sim.cave == cave && sim.State() == Initial(cave).value
  {
    var aa := Get(cave, Name("AA"));
    if aa.None? {
      return null;
    }
    sim := new Simulation(cave, SimState(aa.value.id, {}, 0, 0, 30));
  }

  // ---------------------------------------------------------------------
  // The simple strategy

  /** The move `dumb_strategy` picks among `tunnels`, the tunnels from here still to be tried. */
  function FirstClosed(cave: Cave, open: set<int>, tunnels: seq<string>, all: seq<string>): Option<Action>
    decreases |tunnels|
  {
    if |tunnels| == 0 then
      if |all| == 0 then None
      else
        match Get(cave, Name(all[0]))
        case None => None
        case Some(v) => Some(MoveTo(v.id))
    else
      match Get(cave, Name(tunnels[0]))
      case None => None
      case Some(v) => if v.id !in open then Some(MoveTo(v.id)) else FirstClosed(cave, open, tunnels[1..], all)
  }

  /**
   * `dumb_strategy(sim)`: open the valve here if it is closed; otherwise
   * move to the first neighbour whose valve is closed, or else to the first
   * neighbour.  An unknown tunnel name or a valve with no tunnels raises.
   */
  function Dumb(cave: Cave, s: SimState): Option<Action>
  {
    if s.location !in s.openValves then Some(OpenValve)
    else
      match Get(cave, Id(s.location))
      case None => None
      case Some(here) => FirstClosed(cave, s.openValves, here.tunnels, here.tunnels)
  }

  /** `dumb_strategy(sim)`, the loop over the tunnels from here. */
  method DumbStrategy(sim: Simulation) returns (action: Option<Action>)
    ensures action == Dumb(sim.cave, sim.State())
  {
    if !sim.HereIsOpen() {
      return Some(OpenValve);
    }
    var here := sim.Here();
    if here.None? {
      return None;
    }
    var tunnels := here.value.tunnels;
    var k := 0;
    while k < |tunnels|
      invariant 0 <= k <= |tunnels|
      invariant FirstClosed(sim.cave, sim.openValves, tunnels[k..], tunnels) == Dumb(sim.cave, sim.State())
    {
      assert tunnels[k..][1..] == tunnels[k + 1..];
      var neighbor := Get(sim.cave, Name(tunnels[k]));
      if neighbor.None? {
        return None;
      }
      if neighbor.value.id !in sim.openValves {
        return Some(MoveTo(neighbor.value.id));
      }
      k := k + 1;
    }
    if |tunnels| == 0 {
      return None;
    }
    var first := Get(sim.cave, Name(tunnels[0]));
    if first.None? {
      return None;
    }
    return Some(MoveTo(first.value.id));
  }

  /** Every valve has a tunnel, and every tunnel leads to a valve of the cave. */
  predicate Connected(cave: Cave)
  {
    forall i :: 0 <= i < |cave.valves| ==>
      |cave.valves[i].tunnels| >= 1 &&
      forall t :: t in cave.valves[i].tunnels ==> Get(cave, Name(t)).Some?
  }

  /** A move `FirstClosed` picks goes to a valve named by one of the tunnels. */
  lemma {:induction false} FirstClosedAlongTunnel(cave: Cave, open: set<int>, tunnels: seq<string>, all: seq<string>)
    requires WellFormed(cave) && |all| >= 1
    requires forall t :: t in all ==> Get(cave, Name(t)).Some?
    requires forall t :: t in tunnels ==> t in all
    ensures FirstClosed(cave, open, tunnels, all).Some?
    ensures FirstClosed(cave, open, tunnels, all).value.MoveTo?
    ensures var x := FirstClosed(cave, open, tunnels, all).value.target;
      0 <= x < |cave.valves| && cave.valves[x].name in all
    decreases |tunnels|
  {
    var name := if |tunnels| == 0 then all[0] else tunnels[0];
    assert name in all;
    NamedValve(cave, name);
    var v := Get(cave, Name(name)).value;
    assert cave.valves[v.id] == v;
    if |tunnels| > 0 && v.id in open {
      FirstClosedAlongTunnel(cave, open, tunnels[1..], all);
    }
  }

  /** In a connected, well-formed cave the strategy always picks an action that succeeds and stays on a valve. */
  lemma DumbSucceeds(cave: Cave, s: SimState)
    requires WellFormed(cave) && Connected(cave) && 0 <= s.location < |cave.valves|
    ensures Dumb(cave, s).Some?
    ensures Act(cave, s, Dumb(cave, s).value).Some?
    ensures 0 <= Act(cave, s, Dumb(cave, s).value).value.location < |cave.valves|
  {
    var here := cave.valves[s.location];
    assert Get(cave, Id(s.location)) == Some(here);
    if s.location in s.openValves {
      FirstClosedAlongTunnel(cave, s.openValves, here.tunnels, here.tunnels);
      var x := Dumb(cave, s).value.target;
      assert Get(cave, Id(x)) == Some(cave.valves[x]);
    }
  }

  // ---------------------------------------------------------------------
  // Running the simulation

  /** The loop of `simulate` from state `s`: act, pass a minute, and stop once no time is left. */
  function RunFrom(cave: Cave, s: SimState): Option<SimState>
    decreases s.timeLeft
  {
    match Dumb(cave, s)
    case None => None
    case Some(action) =>
      match Act(cave, s, action)
      case None => None
      case Some(acted) =>
        var (next, more) := Tick(acted);
        if more then RunFrom(cave, next) else Some(next)
  }

  /** `simulate(cave, dumb_strategy)`: the pressure relieved, or None where the source raises. */
  function SimulateResult(cave: Cave): Option<int>
  {
    match Initial(cave)
    case None => None
    case Some(start) =>
      match RunFrom(cave, start)
      case None => None
      case Some(last) => Some(last.pressureRelieved)
  }

  /** `simulate(cave, dumb_strategy)`. */
  method Simulate(cave: Cave) returns (relieved: Option<int>)
    ensures relieved == SimulateResult(cave)
  {
    var sim := OfCave(cave);
    if sim == null {
      return None;
    }
    while true
      invariant sim.cave == cave && sim.timeLeft > 0
      invariant RunFrom(cave, Initial(cave).value) == RunFrom(cave, sim.State())
      decreases sim.timeLeft
    {
      var action := DumbStrategy(sim);
      if action.None? {
        return None;
      }
      var ok := sim.ExecuteAction(action.value);
      if !ok {
        return None;
      }
      var more := sim.PassTime();
      if !more {
        return Some(sim.pressureRelieved);
      }
    }
  }

  /**
   * With at least one minute left in a connected, well-formed cave, the run
   * never fails, ends with no time left, and keeps the flow rate equal to
   * the open valves' flow.
   */
  lemma {:induction false} RunFromSucceeds(cave: Cave, s: SimState)
    requires WellFormed(cave) && Connected(cave) && 0 <= s.location < |cave.valves| && s.timeLeft >= 1
    requires FlowMatches(cave, s)
    ensures RunFrom(cave, s).Some?
    ensures RunFrom(cave, s).value.timeLeft == 0
    ensures FlowMatches(cave, RunFrom(cave, s).value)
    decreases s.timeLeft
  {
    DumbSucceeds(cave, s);
    var action := Dumb(cave, s).value;
    var acted := Act(cave, s, action).value;
    ActKeepsFlow(cave, s, action);
    assert acted.timeLeft == s.timeLeft;
    var next := Tick(acted).0;
    if s.timeLeft > 1 {
      RunFromSucceeds(cave, next);
    }
  }

  /** In a connected, well-formed cave with a valve "AA", `simulate` runs all 30 minutes without raising. */
  lemma SimulateSucceeds(cave: Cave)
    requires WellFormed(cave) && Connected(cave) && Initial(cave).Some?
    ensures SimulateResult(cave).Some?
    ensures RunFrom(cave, Initial(cave).value).value.timeLeft == 0
  {
    NamedValve(cave, "AA");
    RunFromSucceeds(cave, Initial(cave).value);
  }

  // ---------------------------------------------------------------------
  // The tree of actions

  /** `ActionTree`: a node of the search, with the node it was made from. */
  datatype ActionTree = ActionTree(parent: Option<ActionTree>, timeLeft: int, location: int,
                                   visited: set<int>, openedIds: set<int>)

  /** The nodes from the root down to `node`, root first. */
  function Ancestry(node: ActionTree): (r: seq<ActionTree>)
    ensures |r| >= 1 && r[|r| - 1] == node
    decreases node
  {
    match node.parent
    case None => [node]
    case Some(p) => Ancestry(p) + [node]
  }

  /** The nodes above an optional node, root first; nothing above no node. */
  function Above(cur: Option<ActionTree>): seq<ActionTree>
  {
    match cur
    case None => []
    case Some(t) => Ancestry(t)
  }

  /** `history()`: walk up the parents collecting nodes, then reverse the list in place. */
  method History(node: ActionTree) returns (result: seq<ActionTree>)
    ensures result == Ancestry(node)
  {
    var acc: seq<ActionTree> := [];
    var cur: Option<ActionTree> := Some(node);
    while cur.Some?
      invariant Ancestry(node) == Above(cur) + Reversed(acc)
      decreases cur
    {
      var t := cur.value;
      assert Reversed(acc + [t]) == [t] + Reversed(acc);
      acc := acc + [t];
      cur := t.parent;
    }
    result := Reversed(acc);
    assert Ancestry(node) == [] + Reversed(acc);
  }

  /** The history starts at a root, ends at the node, and each node's parent is the one before it. */
  lemma {:induction false} AncestryShape(node: ActionTree)
    ensures Ancestry(node)[0].parent.None?
    ensures forall i :: 0 < i < |Ancestry(node)| ==> Ancestry(node)[i].parent == Some(Ancestry(node)[i - 1])
    decreases node
  {
    match node.parent
    case None =>
    case Some(p) =>
      AncestryShape(p);
      var a := Ancestry(p);
      var r := a + [node];
      forall i | 0 < i < |r| ensures r[i].parent == Some(r[i - 1]) {
        if i < |a| {
          assert r[i] == a[i] && r[i - 1] == a[i - 1];
        }
      }
  }

  /** `make_child(node, action)`: one minute later, with the valve here opened or the new location visited. */
  function MakeChild(node: ActionTree, action: Action): (r: ActionTree)
    ensures r.parent == Some(node) && r.timeLeft == node.timeLeft - 1
    ensures node.visited <= r.visited && node.openedIds <= r.openedIds
  {
    match action
    case OpenValve => ActionTree(Some(node), node.timeLeft - 1, node.location, node.visited, node.openedIds + {node.location})
    case MoveTo(x) => ActionTree(Some(node), node.timeLeft - 1, x, node.visited + {x}, node.openedIds)
  }

  /** Opening adds the location to the openedIds set and stays put; moving sets the location and visits it. */
  lemma MakeChildEffect(node: ActionTree, action: Action)
    ensures action.OpenValve? ==>
      MakeChild(node, action).openedIds == node.openedIds + {node.location} &&
      MakeChild(node, action).location == node.location && MakeChild(node, action).visited == node.visited
    ensures action.MoveTo? ==>
      MakeChild(node, action).location == action.target &&
      MakeChild(node, action).visited == node.visited + {action.target} && MakeChild(node, action).openedIds == node.openedIds
  {
  }

  /** A child's history is its parent's history followed by the child. */
  lemma ChildHistory(node: ActionTree, action: Action)
    ensures Ancestry(MakeChild(node, action)) == Ancestry(node) + [MakeChild(node, action)]
  {
  }

  /** The node reached from `node` by a sequence of actions. */
  function Descend(node: ActionTree, actions: seq<Action>): ActionTree
  {
    if |actions| == 0 then node else MakeChild(Descend(node, actions[..|actions| - 1]), actions[|actions| - 1])
  }

  /** Along any sequence of actions the time drops by one per action and the sets only grow. */
  lemma {:induction false} DescendGrows(node: ActionTree, actions: seq<Action>)
    ensures Descend(node, actions).timeLeft == node.timeLeft - |actions|
    ensures node.visited <= Descend(node, actions).visited && node.openedIds <= Descend(node, actions).openedIds
    ensures |Ancestry(Descend(node, actions))| == |Ancestry(node)| + |actions|
  {
    if |actions| > 0 {
      var init := actions[..|actions| - 1];
      DescendGrows(node, init);
      ChildHistory(Descend(node, init), actions[|actions| - 1]);
    }
  }

  /** Whether every openedIds id of every node names a valve of the cave. */
  predicate AllKnown(cave: Cave, ids: set<int>)
  {
    forall op :: op in ids ==> Get(cave, Id(op)).Some?
  }

  /** `relieved(cave)` over a list of nodes: each node's openedIds valves' flows, added up; a bad id raises. */
  ghost function Relief(cave: Cave, nodes: seq<ActionTree>): Option<int>
  {
    if |nodes| == 0 then Some(0)
    else
      match Relief(cave, nodes[..|nodes| - 1])
      case None => None
      case Some(before) =>
        var last := nodes[|nodes| - 1];
        if AllKnown(cave, last.openedIds) then Some(before + OpenFlow(cave, last.openedIds)) else None
  }

  /** `sum(cave[op].flow_rate for op in openedIds)`, visiting the ids in any order. */
  method SumFlows(cave: Cave, openedIds: set<int>) returns (total: Option<int>)
    ensures total.None? <==> !AllKnown(cave, openedIds)
    ensures total.Some? ==> total.value == OpenFlow(cave, openedIds)
  {
    var left := openedIds;
    var sum := 0;
    while exists y :: y in left
      invariant left <= openedIds
      invariant AllKnown(cave, openedIds - left)
      invariant sum + OpenFlow(cave, left) == OpenFlow(cave, openedIds)
      decreases left
    {
      var op :| op in left;
      var v := Get(cave, Id(op));
      if v.None? {
        return None;
      }
      OpenFlowRemove(cave, left, op);
      sum := sum + v.value.flowRate;
      left := left - {op};
    }
    assert openedIds - left == openedIds;
    return Some(sum);
  }

  /** `relieved(cave)`: the loop over the history. */
  method Relieved(node: ActionTree, cave: Cave) returns (result: Option<int>)
    ensures result == Relief(cave, Ancestry(node))
  {
    var history := History(node);
    var sum := 0;
    var k := 0;
    while k < |history|
      invariant 0 <= k <= |history|
      invariant Relief(cave, history[..k]) == Some(sum)
    {
      assert history[..k + 1][..k] == history[..k];
      var flow := SumFlows(cave, history[k].openedIds);
      if flow.None? {
        ReliefPrefixFails(cave, history, k + 1);
        return None;
      }
      sum := sum + flow.value;
      k := k + 1;
    }
    assert history[..k] == history;
    return Some(sum);
  }

  /** Once a prefix of the nodes fails, so do all of them. */
  lemma {:induction false} ReliefPrefixFails(cave: Cave, nodes: seq<ActionTree>, k: nat)
    requires k <= |nodes| && Relief(cave, nodes[..k]).None?
    ensures Relief(cave, nodes).None?
    decreases |nodes| - k
  {
    if k < |nodes| {
      assert nodes[..k + 1][..k] == nodes[..k];
      ReliefPrefixFails(cave, nodes, k + 1);
    } else {
      assert nodes[..k] == nodes;
    }
  }

  /** A child relieves what its parent did plus the flow of the child's openedIds valves. */
  lemma ChildRelief(cave: Cave, node: ActionTree, action: Action)
    requires Relief(cave, Ancestry(node)).Some?
    ensures var child := MakeChild(node, action);
      Relief(cave, Ancestry(child)) ==
        if AllKnown(cave, child.openedIds) then Some(Relief(cave, Ancestry(node)).value + OpenFlow(cave, child.openedIds))
        else None
  {
    var child := MakeChild(node, action);
    ChildHistory(node, action);
    var h := Ancestry(child);
    assert h[..|h| - 1] == Ancestry(node);
  }
}
