// Day 11 of aoc2022/day11.py: monkeys pass items around.  Each inspection
// applies the monkey's operation to the item's worry level, relieves the
// worry (part 1: floored division by 3; part 2: the remainder by the
// product of all tests) and throws the item to one of two monkeys
// according to a divisibility test.
module Day11 {
  import opened Wrappers
  import Seqs
  import Text
  import Ints
  import Util

  /** `Expr`: the union of `EOld`, `EConst`, `EAdd` and `EMul`. */
  datatype Expr = Old | Const(value: int) | Add(lhs: Expr, rhs: Expr) | Mul(lhs: Expr, rhs: Expr)

  /** `eval`, with `prev` the worry level before the operation. */
  function Eval(e: Expr, prev: int): int
  {
    match e
    case Old => prev
    case Const(v) => v
    case Add(l, r) => Eval(l, prev) + Eval(r, prev)
    case Mul(l, r) => Eval(l, prev) * Eval(r, prev)
  }

  /**
   * Evaluation respects congruence: worry levels with the same remainder
   * modulo `m` evaluate to results with the same remainder.
   */
  lemma {:induction false} EvalCongruent(e: Expr, a: int, b: int, m: int)
    requires m != 0 && Ints.Congruent(a, b, m)
    ensures Ints.Congruent(Eval(e, a), Eval(e, b), m)
  {
    match e
    case Old =>
    case Const(v) =>
    case Add(l, r) =>
      var la, lb, ra, rb := Eval(l, a), Eval(l, b), Eval(r, a), Eval(r, b);
      EvalCongruent(l, a, b, m);
      EvalCongruent(r, a, b, m);
      Ints.CongruentAdd(la, lb, ra, rb, m);
      assert Eval(e, a) == la + ra && Eval(e, b) == lb + rb;
    case Mul(l, r) =>
      var la, lb, ra, rb := Eval(l, a), Eval(l, b), Eval(r, a), Eval(r, b);
      EvalCongruent(l, a, b, m);
      EvalCongruent(r, a, b, m);
      Ints.CongruentMul(la, lb, ra, rb, m);
      assert Eval(e, a) == la * ra && Eval(e, b) == lb * rb;
  }

  /** `parse_sub`: "old", or else an integer (`int` drops the blanks itself). */
  function ParseSub(s: string): Option<Expr>
  {
    var t := Text.Strip(s);
    if t == "old" then Some(Old)
    else
      match Text.ParseInt(t)
      case Some(v) => Some(Const(v))
      case None => None
  }

  /**
   * `parse_expr`: after dropping "new = " and the surrounding blanks, the
   * pieces between single spaces are an operand, "*" or "+", and an
   * operand.  Fewer than three pieces or another operator fail; pieces
   * after the third are ignored.
   */
  function ParseExpr(s: string): Option<Expr>
  {
    ParsePieces(Text.Split(Text.Strip(Text.Replace(s, "new = ", "")), ' '))
  }

  function ParsePieces(subs: seq<string>): Option<Expr>
  {
    if |subs| < 3 then None else Combine(ParseSub(subs[0]), subs[1], ParseSub(subs[2]))
  }

  /** The operator between two parsed operands: "*" or "+"; anything else fails. */
  function Combine(lhs: Option<Expr>, op: string, rhs: Option<Expr>): Option<Expr>
  {
    match (lhs, rhs)
    case (Some(l), Some(r)) =>
      if op == "*" then Some(Mul(l, r))
      else if op == "+" then Some(Add(l, r))
      else None
    case _ => None
  }

  /** An operand the parser reads: `old` or a constant. */
  predicate Operand(e: Expr) { e.Old? || e.Const? }

  /** An operation the parser produces: one operator between two operands. */
  predicate Simple(e: Expr) {
    (e.Add? || e.Mul?) && Operand(e.lhs) && Operand(e.rhs)
  }

  function ShowOperand(e: Expr): string
    requires Operand(e)
  {
    if e.Old? then "old" else Text.ShowInt(e.value)
  }

  function OperatorText(e: Expr): string
  {
    if e.Mul? then "*" else "+"
  }

  /** The operation as the puzzle input writes it after "Operation: ". */
  function ShowExpr(e: Expr): string
    requires Simple(e)
  {
    "new = " + (ShowOperand(e.lhs) + " " + OperatorText(e) + " " + ShowOperand(e.rhs))
  }

  lemma OperandShape(e: Expr)
    requires Operand(e)
    ensures |ShowOperand(e)| >= 1
    ensures !Text.IsSpace(ShowOperand(e)[0]) && !Text.IsSpace(ShowOperand(e)[|ShowOperand(e)| - 1])
    ensures ' ' !in ShowOperand(e) && 'n' !in ShowOperand(e)
  {
    if e.Const? {
      Text.ShowIntEnds(e.value);
      Text.ShowIntChars(e.value, ' ');
      Text.ShowIntChars(e.value, 'n');
    }
  }

  lemma ParseShownOperand(e: Expr)
    requires Operand(e)
    ensures ParseSub(ShowOperand(e)) == Some(e)
  {
    OperandShape(e);
    Text.NoSpaceStrip(ShowOperand(e));
    if e.Const? {
      Text.ShowIntEnds(e.value);
      assert ShowOperand(e)[0] != 'o';
      Text.ParseShowInt(e.value);
    }
  }

  /** Three space-free words joined by single spaces split back into the words. */
  lemma SplitThree(a: string, op: string, b: string)
    requires ' ' !in a && ' ' !in op && ' ' !in b
    ensures Text.Split(a + " " + op + " " + b, ' ') == [a, op, b]
  {
    assert a + " " + op + " " + b == a + [' '] + (op + [' '] + b);
    Text.SplitPrefix(a, op + [' '] + b, ' ');
    Text.SplitPrefix(op, b, ' ');
    Text.SplitNoSep(b, ' ');
  }

  /** Dropping "new = " and the blanks around it leaves the right-hand side. */
  lemma DropAssignment(pad: string, body: string)
    requires Blanks(pad) && 'n' !in body && |body| >= 1
    requires !Text.IsSpace(body[0]) && !Text.IsSpace(body[|body| - 1])
    ensures Text.Strip(Text.Replace(pad + ("new = " + body), "new = ", "")) == body
  {
    DropLabel(pad, "new = ", body);
    Text.StripPadded(pad, body);
  }

  lemma ParseThreePieces(a: string, op: string, b: string, l: Expr, r: Expr)
    requires ParseSub(a) == Some(l) && ParseSub(b) == Some(r)
    ensures ParsePieces([a, op, b]) == Combine(Some(l), op, Some(r))
  {
    var subs := [a, op, b];
    assert subs[0] == a && subs[1] == op && subs[2] == b;
  }

  /** The right-hand side "a op b" has no 'n' and no blanks at its ends. */
  lemma BodyShape(a: string, op: string, b: string)
    requires 'n' !in a && 'n' !in op && 'n' !in b
    requires |a| >= 1 && !Text.IsSpace(a[0]) && |b| >= 1 && !Text.IsSpace(b[|b| - 1])
    ensures var body := a + " " + op + " " + b;
      'n' !in body && |body| >= 1 && !Text.IsSpace(body[0]) && !Text.IsSpace(body[|body| - 1])
  {
    var body := a + " " + op + " " + b;
    assert body[0] == a[0] && body[|body| - 1] == b[|b| - 1];
  }

  /** The text "new = a op b" parses to the operation `op` makes of what `a` and `b` parse to. */
  lemma ParseAssignment(pad: string, a: string, op: string, b: string, l: Expr, r: Expr)
    requires Blanks(pad)
    requires ParseSub(a) == Some(l) && ParseSub(b) == Some(r)
    requires ' ' !in a && 'n' !in a && |a| >= 1 && !Text.IsSpace(a[0])
    requires ' ' !in op && 'n' !in op
    requires ' ' !in b && 'n' !in b && |b| >= 1 && !Text.IsSpace(b[|b| - 1])
    ensures ParseExpr(pad + ("new = " + (a + " " + op + " " + b))) == Combine(Some(l), op, Some(r))
  {
    var body := a + " " + op + " " + b;
    BodyShape(a, op, b);
    DropAssignment(pad, body);
    SplitThree(a, op, b);
    ParseExprVia(pad + ("new = " + body), body, [a, op, b]);
    ParseThreePieces(a, op, b, l, r);
  }

  /** `parse_expr` reads the pieces of the stripped right-hand side. */
  lemma ParseExprVia(s: string, body: string, subs: seq<string>)
    requires Text.Strip(Text.Replace(s, "new = ", "")) == body && Text.Split(body, ' ') == subs
    ensures ParseExpr(s) == ParsePieces(subs)
  {
  }

  /** The operator's text is one character, and `Combine` reads it back. */
  lemma OperatorShape(e: Expr)
    requires Simple(e)
    ensures ' ' !in OperatorText(e) && 'n' !in OperatorText(e)
    ensures Combine(Some(e.lhs), OperatorText(e), Some(e.rhs)) == Some(e)
  {
    if e.Mul? {
      assert OperatorText(e) == "*";
    } else {
      assert OperatorText(e) == "+";
    }
  }

  /** Every operation the parser produces parses back from its text, after any blanks. */
  lemma ParseShownExpr(pad: string, e: Expr)
    requires Simple(e) && Blanks(pad)
    ensures ParseExpr(pad + ShowExpr(e)) == Some(e)
  {
    var a := ShowOperand(e.lhs);
    var b := ShowOperand(e.rhs);
    var op := OperatorText(e);
    assert pad + ShowExpr(e) == pad + ("new = " + (a + " " + op + " " + b));
    assert ' ' !in a && 'n' !in a && |a| >= 1 && !Text.IsSpace(a[0]) by { OperandShape(e.lhs); }
    assert ' ' !in b && 'n' !in b && |b| >= 1 && !Text.IsSpace(b[|b| - 1]) by { OperandShape(e.rhs); }
    assert ParseSub(a) == Some(e.lhs) by { ParseShownOperand(e.lhs); }
    assert ParseSub(b) == Some(e.rhs) by { ParseShownOperand(e.rhs); }
    OperatorShape(e);
    ParseAssignment(pad, a, op, b, e.lhs, e.rhs);
  }

  /** `Monkey`: the fields of the dataclass, with `total_inspected` as `inspected`. */
  datatype Monkey = Monkey(id: int, items: seq<int>, op: Expr, test: int,
                           ifTrue: int, ifFalse: int, inspected: nat)

  /** The integer left on a line once its label is removed. */
  function NumberAfter(line: string, tag: string): Option<int>
    requires |tag| > 0
  {
    Text.ParseInt(Text.Replace(line, tag, ""))
  }

  /**
   * `Monkey.parse`: the first six lines of a group, each with its label
   * removed, give the id, the comma-separated items, the operation, the
   * test divisor and the two targets; the count starts at 0.  Fewer than
   * six lines, or any piece that is not a number, fail.
   */
  function ParseMonkey(group: seq<string>): Option<Monkey>
  {
    if |group| < 6 then None
    else
      var id := Text.ParseInt(Text.Replace(Text.Replace(group[0], "Monkey ", ""), ":", ""));
      var items := Text.ParseInts(Text.Split(Text.Replace(group[1], "Starting items:", ""), ','));
      var op := ParseExpr(Text.Replace(group[2], "Operation: ", ""));
      var test := NumberAfter(group[3], "Test: divisible by");
      var ifTrue := NumberAfter(group[4], "If true: throw to monkey");
      var ifFalse := NumberAfter(group[5], "If false: throw to monkey");
      if id.Some? && items.Some? && op.Some? && test.Some? && ifTrue.Some? && ifFalse.Some? then
        Some(Monkey(id.value, items.value, op.value, test.value, ifTrue.value, ifFalse.value, 0))
      else None
  }

  /** `list(map(Monkey.parse, groups))`. */
  function ParseMonkeys(groups: seq<seq<string>>): (r: Option<seq<Monkey>>)
    ensures r.Some? <==> forall i :: 0 <= i < |groups| ==> ParseMonkey(groups[i]).Some?
    ensures r.Some? ==> |r.value| == |groups|
    ensures r.Some? ==> forall i :: 0 <= i < |groups| ==> r.value[i] == ParseMonkey(groups[i]).value
  {
    var xs := seq(|groups|, i requires 0 <= i < |groups| => ParseMonkey(groups[i]));
    assert |xs| == |groups| && forall i :: 0 <= i < |groups| ==> xs[i] == ParseMonkey(groups[i]);
    AllSome(xs)
  }

  /** The items after "Starting items:", each preceded by a blank, separated by commas. */
  function ShowItems(items: seq<int>): string
  {
    Text.Join(ItemTexts(items), ',')
  }

  function ItemTexts(items: seq<int>): (r: seq<string>)
    ensures |r| == |items|
    ensures forall k :: 0 <= k < |items| ==> r[k] == " " + Text.ShowInt(items[k])
  {
    seq(|items|, k requires 0 <= k < |items| => " " + Text.ShowInt(items[k]))
  }

  /** A monkey's six lines as the puzzle input writes them. */
  function ShowMonkey(m: Monkey): seq<string>
    requires Simple(m.op)
  {
    [ "Monkey " + (Text.ShowInt(m.id) + ":"),
      "  " + ("Starting items:" + ShowItems(m.items)),
      "  " + ("Operation: " + ShowExpr(m.op)),
      "  " + ("Test: divisible by" + (" " + Text.ShowInt(m.test))),
      "    " + ("If true: throw to monkey" + (" " + Text.ShowInt(m.ifTrue))),
      "    " + ("If false: throw to monkey" + (" " + Text.ShowInt(m.ifFalse))) ]
  }

  predicate Blanks(pad: string) { forall i :: 0 <= i < |pad| ==> pad[i] == ' ' }

  /** Removing a label that follows blanks leaves the blanks and the rest. */
  lemma DropLabel(pad: string, tag: string, rest: string)
    requires |tag| > 0 && tag[0] != ' ' && Blanks(pad) && tag[0] !in rest
    ensures Text.Replace(pad + (tag + rest), tag, "") == pad + rest
  {
    assert tag[0] !in pad;
    Text.ReplaceSkip(pad, tag + rest, tag, "");
    Text.ReplaceHit(tag, rest, "");
    Text.ReplaceAbsent(rest, tag, "");
    assert "" + rest == rest;
  }

  /** A labelled number line parses back to its number. */
  lemma NumberLine(pad: string, tag: string, n: int)
    requires |tag| > 0 && tag[0] != ' ' && tag[0] != '-' && !Text.IsDigit(tag[0]) && Blanks(pad)
    ensures NumberAfter(pad + (tag + (" " + Text.ShowInt(n))), tag) == Some(n)
  {
    var rest := " " + Text.ShowInt(n);
    assert tag[0] !in rest by {
      Text.ShowIntChars(n, tag[0]);
    }
    DropLabel(pad, tag, rest);
    assert pad + rest == (pad + " ") + Text.ShowInt(n);
    Text.ParsePadded(pad + " ", n);
  }

  /** The id line parses back to the id. */
  lemma IdLine(id: int)
    ensures Text.ParseInt(Text.Replace(Text.Replace("Monkey " + (Text.ShowInt(id) + ":"), "Monkey ", ""), ":", "")) == Some(id)
  {
    var num := Text.ShowInt(id);
    assert Text.Replace("Monkey " + (num + ":"), "Monkey ", "") == num + ":" by {
      Text.ShowIntChars(id, 'M');
      assert 'M' !in num + ":";
      DropLabel("", "Monkey ", num + ":");
      assert "" + ("Monkey " + (num + ":")) == "Monkey " + (num + ":");
      assert "" + (num + ":") == num + ":";
    }
    assert Text.Replace(num + ":", ":", "") == num by {
      Text.ShowIntChars(id, ':');
      Text.ReplaceSkip(num, ":", ":", "");
      Text.ReplaceHit(":", "", "");
      assert Text.Replace("", ":", "") == "";
      assert num + "" == num;
    }
    Text.ParseShowInt(id);
  }

  /** Blanks in front of a join attach to its first piece. */
  lemma JoinPadFirst(pad: string, parts: seq<string>, sep: char)
    requires |parts| >= 1
    ensures pad + Text.Join(parts, sep) == Text.Join([pad + parts[0]] + parts[1..], sep)
  {
    var q := [pad + parts[0]] + parts[1..];
    assert q[1..] == parts[1..];
  }

  /** The pieces of the items line: the blanks in front stay with the first item. */
  function PaddedItems(items: seq<int>): (q: seq<string>)
    requires |items| >= 1
    ensures |q| == |items|
  {
    ["  " + ItemTexts(items)[0]] + ItemTexts(items)[1..]
  }

  lemma ItemsPieces(items: seq<int>)
    requires |items| >= 1
    ensures Text.Split(Text.Replace("  " + ("Starting items:" + ShowItems(items)),
      "Starting items:", ""), ',') == PaddedItems(items)
  {
    var p := ItemTexts(items);
    var q := PaddedItems(items);
    forall k | 0 <= k < |p|
      ensures 'S' !in p[k] && ',' !in p[k]
    {
      Text.ShowIntChars(items[k], 'S');
      Text.ShowIntChars(items[k], ',');
    }
    assert Text.Replace("  " + ("Starting items:" + ShowItems(items)), "Starting items:", "")
        == "  " + ShowItems(items) by {
      Text.JoinAvoids(p, ',', 'S');
      DropLabel("  ", "Starting items:", ShowItems(items));
    }
    assert "  " + ShowItems(items) == Text.Join(q, ',') by {
      JoinPadFirst("  ", p, ',');
    }
    assert Text.Split(Text.Join(q, ','), ',') == q by {
      assert forall k :: 0 <= k < |q| ==> ',' !in q[k];
      Text.SplitJoin(q, ',');
    }
  }

  lemma ItemsValues(items: seq<int>)
    requires |items| >= 1
    ensures Text.ParseInts(PaddedItems(items)) == Some(items)
  {
    var q := PaddedItems(items);
    forall k | 0 <= k < |q|
      ensures Text.ParseInt(q[k]) == Some(items[k])
    {
      if k == 0 {
        assert q[0] == "   " + Text.ShowInt(items[0]);
        Text.ParsePadded("   ", items[0]);
      } else {
        assert q[k] == " " + Text.ShowInt(items[k]);
        Text.ParsePadded(" ", items[k]);
      }
    }
    var r := Text.ParseInts(q);
    assert r.Some? && r.value == items;
  }

  /** Six lines whose pieces parse give the monkey made of those pieces. */
  lemma ParseSixLines(g: seq<string>, m: Monkey)
    requires |g| == 6 && m.inspected == 0
    requires Text.ParseInt(Text.Replace(Text.Replace(g[0], "Monkey ", ""), ":", "")) == Some(m.id)
    requires Text.ParseInts(Text.Split(Text.Replace(g[1], "Starting items:", ""), ',')) == Some(m.items)
    requires ParseExpr(Text.Replace(g[2], "Operation: ", "")) == Some(m.op)
    requires NumberAfter(g[3], "Test: divisible by") == Some(m.test)
    requires NumberAfter(g[4], "If true: throw to monkey") == Some(m.ifTrue)
    requires NumberAfter(g[5], "If false: throw to monkey") == Some(m.ifFalse)
    ensures ParseMonkey(g) == Some(m)
  {
  }

  /** A character outside "new=old*+", the digits and '-' does not occur in an operation's text. */
  lemma ShowExprAvoids(e: Expr, c: char)
    requires Simple(e) && c !in "new = old * +" && !Text.IsDigit(c) && c != '-'
    ensures c !in ShowExpr(e)
  {
    assert c !in ShowOperand(e.lhs) && c !in ShowOperand(e.rhs) by {
      if e.lhs.Const? { Text.ShowIntChars(e.lhs.value, c); }
      if e.rhs.Const? { Text.ShowIntChars(e.rhs.value, c); }
    }
  }

  lemma ShownIdLine(m: Monkey)
    requires Simple(m.op)
    ensures Text.ParseInt(Text.Replace(Text.Replace(ShowMonkey(m)[0], "Monkey ", ""), ":", "")) == Some(m.id)
  {
    IdLine(m.id);
  }

  lemma ShownItemsLine(m: Monkey)
    requires Simple(m.op) && |m.items| >= 1
    ensures Text.ParseInts(Text.Split(Text.Replace(ShowMonkey(m)[1], "Starting items:", ""), ',')) == Some(m.items)
  {
    var line := ShowMonkey(m)[1];
    assert line == "  " + ("Starting items:" + ShowItems(m.items));
    ItemsLine(m.items, line);
  }

  /** The items line, written out, reads back as the items. */
  lemma ItemsLine(items: seq<int>, line: string)
    requires |items| >= 1 && line == "  " + ("Starting items:" + ShowItems(items))
    ensures Text.ParseInts(Text.Split(Text.Replace(line, "Starting items:", ""), ',')) == Some(items)
  {
    ItemsPieces(items);
    ItemsValues(items);
  }

  lemma ShownOperationLine(m: Monkey)
    requires Simple(m.op)
    ensures ParseExpr(Text.Replace(ShowMonkey(m)[2], "Operation: ", "")) == Some(m.op)
  {
    ShowExprAvoids(m.op, 'O');
    DropLabel("  ", "Operation: ", ShowExpr(m.op));
    ParseShownExpr("  ", m.op);
  }

  lemma ShownNumberLines(m: Monkey)
    requires Simple(m.op)
    ensures NumberAfter(ShowMonkey(m)[3], "Test: divisible by") == Some(m.test)
    ensures NumberAfter(ShowMonkey(m)[4], "If true: throw to monkey") == Some(m.ifTrue)
    ensures NumberAfter(ShowMonkey(m)[5], "If false: throw to monkey") == Some(m.ifFalse)
  {
    NumberLine("  ", "Test: divisible by", m.test);
    NumberLine("    ", "If true: throw to monkey", m.ifTrue);
    NumberLine("    ", "If false: throw to monkey", m.ifFalse);
  }

  /**
   * Every monkey the parser can produce, with a nonempty item list and a
   * zero count, parses back from its six lines.
   */
  lemma ParseShownMonkey(m: Monkey)
    requires Simple(m.op) && |m.items| >= 1
    ensures ParseMonkey(ShowMonkey(m)) == Some(m.(inspected := 0))
  {
    ShownIdLine(m);
    ShownItemsLine(m);
    ShownOperationLine(m);
    ShownNumberLines(m);
    ParseSixLines(ShowMonkey(m), m.(inspected := 0));
  }

  // ---------------------------------------------------------------------
  // The rounds

  /** How worry is relieved after an inspection. */
  datatype Relief =
    | Thirds                // part 1: `new_worry // 3`
    | Modulo(modulus: int)  // part 2: `new_worry % super_mod`
    | Unrelieved            // the worry is kept whole: what the reduction stands in for

  /** The id of the monkey that catches an item thrown with worry level `w`: the true target when the test divides `w`. */
  function Target(m: Monkey, w: int): int
  {
    if Ints.Divides(m.test, w) then m.ifTrue else m.ifFalse
  }

  /**
   * One inspection of `item`: the worry level the item is thrown with and
   * the id of the monkey it is thrown to.  A zero test divisor fails (the
   * `%` raises), and so does a zero `super_mod`.
   */
  function Inspect(m: Monkey, item: int, relief: Relief): Option<(int, int)>
  {
    var w := Eval(m.op, item);
    if m.test == 0 then None
    else
      match relief
      case Thirds =>
        var v := Ints.DivMod(w, 3).0;
        Some((v, Target(m, v)))
      case Modulo(sm) =>
        if sm == 0 then None else Some((Ints.DivMod(w, sm).1, Target(m, w)))
      case Unrelieved =>
        Some((w, Target(m, w)))
  }

  /**
   * The monkey at position `i` inspects `item` and throws it: the catcher's
   * list grows by the new worry level and the thrower's count by one.  An
   * id out of range fails, as Python's list index does.  A throw to the
   * thrower itself also fails here: the source appends the item to the very
   * list its `for` loop is walking, so that monkey inspects it again in the
   * same turn (and never stops if it keeps the item every time).
   */
  function Throw(ms: seq<Monkey>, i: nat, item: int, relief: Relief): (r: Option<seq<Monkey>>)
    requires i < |ms|
    ensures r.Some? ==> |r.value| == |ms|
    ensures r.None? <==>
      var thrown := Inspect(ms[i], item, relief);
      thrown.None? || Seqs.PyIndex(|ms|, thrown.value.1).None? || Seqs.PyIndex(|ms|, thrown.value.1).value == i
  {
    match Inspect(ms[i], item, relief)
    case None => None
    case Some(thrown) =>
      match Seqs.PyIndex(|ms|, thrown.1)
      case None => None
      case Some(t) =>
        if t == i then None
        else
          var caught := ms[t := ms[t].(items := ms[t].items + [thrown.0])];
          Some(caught[i := caught[i].(inspected := caught[i].inspected + 1)])
  }

  /** `for item in monkey.items: ...`: the items are thrown one after the other. */
  function ThrowAll(ms: seq<Monkey>, i: nat, items: seq<int>, relief: Relief): (r: Option<seq<Monkey>>)
    requires i < |ms|
    ensures r.Some? ==> |r.value| == |ms|
    decreases |items|
  {
    if |items| == 0 then Some(ms)
    else
      match Throw(ms, i, items[0], relief)
      case None => None
      case Some(next) => ThrowAll(next, i, items[1..], relief)
  }

  /** A monkey's turn: it throws every item it holds and then holds none. */
  function Turn(ms: seq<Monkey>, i: nat, relief: Relief): (r: Option<seq<Monkey>>)
    requires i < |ms|
    ensures r.Some? ==> |r.value| == |ms|
  {
    match ThrowAll(ms, i, ms[i].items, relief)
    case None => None
    case Some(next) => Some(next[i := next[i].(items := [])])
  }

  /** The turns of the monkeys from position `i` on, in order. */
  function RoundFrom(ms: seq<Monkey>, i: nat, relief: Relief): (r: Option<seq<Monkey>>)
    requires i <= |ms|
    ensures r.Some? ==> |r.value| == |ms|
    decreases |ms| - i
  {
    if i == |ms| then Some(ms)
    else
      match Turn(ms, i, relief)
      case None => None
      case Some(next) => RoundFrom(next, i + 1, relief)
  }

  /** One round: every monkey takes its turn. */
  function Round(ms: seq<Monkey>, relief: Relief): (r: Option<seq<Monkey>>)
    ensures r.Some? ==> |r.value| == |ms|
  {
    RoundFrom(ms, 0, relief)
  }

  /** `n` rounds one after the other. */
  function Rounds(ms: seq<Monkey>, n: nat, relief: Relief): (r: Option<seq<Monkey>>)
    ensures r.Some? ==> |r.value| == |ms|
    decreases n
  {
    if n == 0 then Some(ms)
    else
      match Round(ms, relief)
      case None => None
      case Some(next) => Rounds(next, n - 1, relief)
  }

  /**
   * Part 1's inspection: it fails exactly for a zero divisor; otherwise the
   * kept worry is the new worry divided by 3 and rounded down, and the item
   * goes to `ifTrue` when the test divides that kept value and to `ifFalse`
   * when it does not.
   */
  lemma InspectThirds(m: Monkey, item: int)
    ensures Inspect(m, item, Thirds).Some? <==> m.test != 0
    ensures Inspect(m, item, Thirds).Some? ==>
      var v := Inspect(m, item, Thirds).value.0;
      3 * v <= Eval(m.op, item) < 3 * v + 3 &&
      (Ints.Divides(m.test, v) ==> Inspect(m, item, Thirds).value.1 == m.ifTrue) &&
      (!Ints.Divides(m.test, v) ==> Inspect(m, item, Thirds).value.1 == m.ifFalse)
  {
    Ints.DivModMeaning(Eval(m.op, item), 3);
  }

  /**
   * Part 2's inspection with a modulus that every test divides: the kept
   * worry is congruent to the new worry, lies in the remainder range of the
   * modulus, and is divisible by the monkey's test exactly when the new
   * worry is; the item goes where the unreduced worry would send it.
   */
  lemma InspectModulo(m: Monkey, item: int, sm: int)
    requires sm != 0 && Ints.Divides(m.test, sm)
    ensures Inspect(m, item, Modulo(sm)).Some?
    ensures var v := Inspect(m, item, Modulo(sm)).value.0;
      var w := Eval(m.op, item);
      Ints.Congruent(v, w, sm) && Ints.InRemainderRange(v, sm) &&
      (Ints.Divides(m.test, v) <==> Ints.Divides(m.test, w)) &&
      Inspect(m, item, Modulo(sm)).value.1 == Target(m, w) == Target(m, v)
  {
    var w := Eval(m.op, item);
    var v := Ints.DivMod(w, sm).1;
    Ints.DivModMeaning(w, sm);
    Ints.ReduceCongruent(w, sm);
    Ints.CongruentDivisor(v, w, sm, m.test);
  }

  // ---------------------------------------------------------------------
  // What a turn changes

  /** The number of items all monkeys hold together. */
  function TotalItems(ms: seq<Monkey>): nat
  {
    if |ms| == 0 then 0 else TotalItems(ms[..|ms| - 1]) + |ms[|ms| - 1].items|
  }

  /** Replacing one monkey changes the total by the change in its items. */
  lemma {:induction false} TotalItemsUpdate(ms: seq<Monkey>, k: nat, m: Monkey)
    requires k < |ms|
    ensures TotalItems(ms[k := m]) == TotalItems(ms) - |ms[k].items| + |m.items|
    decreases |ms|
  {
    var n := |ms| - 1;
    if k == n {
      assert ms[k := m][..n] == ms[..n];
    } else {
      assert ms[k := m][..n] == ms[..n][k := m];
      TotalItemsUpdate(ms[..n], k, m);
    }
  }

  /** The fields no round changes: id, operation, test and targets. */
  predicate Same(a: Monkey, b: Monkey) {
    a.(items := [], inspected := 0) == b.(items := [], inspected := 0)
  }

  /**
   * What a run of throws by the monkey at `i` changes: that monkey counts
   * one inspection per item, every other monkey only gains items at the end
   * of its list, and the total grows by the number of items thrown (the
   * thrower's own list is emptied only at the end of the turn).
   */
  predicate Thrown(ms: seq<Monkey>, r: seq<Monkey>, i: nat, n: nat)
    requires i < |ms|
  {
    |r| == |ms| &&
    r[i] == ms[i].(inspected := ms[i].inspected + n) &&
    (forall k :: 0 <= k < |ms| && k != i ==>
      Same(r[k], ms[k]) && r[k].inspected == ms[k].inspected && ms[k].items <= r[k].items) &&
    TotalItems(r) == TotalItems(ms) + n
  }

  lemma ThrowEffect(ms: seq<Monkey>, i: nat, item: int, relief: Relief)
    requires i < |ms|
    ensures Throw(ms, i, item, relief).Some? ==> Thrown(ms, Throw(ms, i, item, relief).value, i, 1)
  {
    if Throw(ms, i, item, relief).Some? {
      var thrown := Inspect(ms[i], item, relief).value;
      var t := Seqs.PyIndex(|ms|, thrown.1).value;
      var caught := ms[t := ms[t].(items := ms[t].items + [thrown.0])];
      TotalItemsUpdate(ms, t, caught[t]);
      TotalItemsUpdate(caught, i, caught[i].(inspected := caught[i].inspected + 1));
    }
  }

  lemma {:induction false} ThrowAllEffect(ms: seq<Monkey>, i: nat, items: seq<int>, relief: Relief)
    requires i < |ms|
    ensures ThrowAll(ms, i, items, relief).Some? ==> Thrown(ms, ThrowAll(ms, i, items, relief).value, i, |items|)
    decreases |items|
  {
    if |items| > 0 && Throw(ms, i, items[0], relief).Some? {
      var next := Throw(ms, i, items[0], relief).value;
      ThrowEffect(ms, i, items[0], relief);
      ThrowAllEffect(next, i, items[1..], relief);
      if ThrowAll(next, i, items[1..], relief).Some? {
        var r := ThrowAll(next, i, items[1..], relief).value;
        forall k | 0 <= k < |ms| && k != i
          ensures ms[k].items <= r[k].items
        {
          assert ms[k].items <= next[k].items <= r[k].items;
        }
      }
    }
  }

  /**
   * A turn, when it does not fail, leaves the monkey with no items and a
   * count grown by the number it held; the others keep their counts and
   * only gain items, and no item is lost or made.
   */
  lemma TurnEffect(ms: seq<Monkey>, i: nat, relief: Relief)
    requires i < |ms|
    ensures Turn(ms, i, relief).Some? ==>
      var r := Turn(ms, i, relief).value;
      |r| == |ms| &&
      r[i] == ms[i].(items := [], inspected := ms[i].inspected + |ms[i].items|) &&
      (forall k :: 0 <= k < |ms| && k != i ==>
        Same(r[k], ms[k]) && r[k].inspected == ms[k].inspected && ms[k].items <= r[k].items) &&
      TotalItems(r) == TotalItems(ms)
  {
    ThrowAllEffect(ms, i, ms[i].items, relief);
    if ThrowAll(ms, i, ms[i].items, relief).Some? {
      var next := ThrowAll(ms, i, ms[i].items, relief).value;
      TotalItemsUpdate(next, i, next[i].(items := []));
    }
  }

  /** Nothing a round does changes a monkey's fixed fields or lowers its count. */
  predicate Kept(ms: seq<Monkey>, r: seq<Monkey>)
  {
    |r| == |ms| && forall k :: 0 <= k < |ms| ==> Same(r[k], ms[k]) && ms[k].inspected <= r[k].inspected
  }

  lemma {:induction false} RoundFromEffect(ms: seq<Monkey>, i: nat, relief: Relief)
    requires i <= |ms|
    ensures RoundFrom(ms, i, relief).Some? ==>
      Kept(ms, RoundFrom(ms, i, relief).value) && TotalItems(RoundFrom(ms, i, relief).value) == TotalItems(ms)
    decreases |ms| - i
  {
    if i < |ms| && Turn(ms, i, relief).Some? {
      var next := Turn(ms, i, relief).value;
      TurnEffect(ms, i, relief);
      RoundFromEffect(next, i + 1, relief);
    }
  }

  /** Each round keeps the fixed fields, never lowers a count and conserves the items. */
  lemma {:induction false} RoundsEffect(ms: seq<Monkey>, n: nat, relief: Relief)
    ensures Rounds(ms, n, relief).Some? ==>
      Kept(ms, Rounds(ms, n, relief).value) && TotalItems(Rounds(ms, n, relief).value) == TotalItems(ms)
    decreases n
  {
    if n > 0 && Round(ms, relief).Some? {
      var next := Round(ms, relief).value;
      RoundFromEffect(ms, 0, relief);
      RoundsEffect(next, n - 1, relief);
    }
  }

  // ---------------------------------------------------------------------
  // Why part 2 may reduce the worry levels

  /** Two monkeys that agree except that their items agree only modulo `m`. */
  predicate Matches(x: Monkey, y: Monkey, m: int)
  {
    x.(items := []) == y.(items := []) && |x.items| == |y.items| &&
    forall j :: 0 <= j < |x.items| ==> Ints.Congruent(x.items[j], y.items[j], m)
  }

  predicate Related(a: seq<Monkey>, b: seq<Monkey>, m: int)
  {
    |a| == |b| && forall k :: 0 <= k < |a| ==> Matches(a[k], b[k], m)
  }

  /** Every monkey's test divides `m`. */
  predicate TestsDivide(ms: seq<Monkey>, m: int)
  {
    forall k :: 0 <= k < |ms| ==> Ints.Divides(ms[k].test, m)
  }

  /**
   * With items congruent modulo `m`, the reduced inspection and the
   * unreduced one both succeed, send the item to the same monkey, and keep
   * congruent worry levels.
   */
  lemma InspectAgree(x: Monkey, y: Monkey, a: int, b: int, m: int)
    requires m != 0 && x.(items := []) == y.(items := []) && Ints.Divides(x.test, m)
    requires Ints.Congruent(a, b, m)
    ensures Inspect(x, a, Modulo(m)).Some? && Inspect(y, b, Unrelieved).Some?
    ensures Inspect(x, a, Modulo(m)).value.1 == Inspect(y, b, Unrelieved).value.1
    ensures Ints.Congruent(Inspect(x, a, Modulo(m)).value.0, Inspect(y, b, Unrelieved).value.0, m)
  {
    assert x.op == y.op && x.test == y.test && x.ifTrue == y.ifTrue && x.ifFalse == y.ifFalse;
    var wa := Eval(x.op, a);
    var wb := Eval(x.op, b);
    EvalCongruent(x.op, a, b, m);
    Ints.ReduceCongruent(wa, m);
    Ints.CongruentDivisor(wa, wb, m, x.test);
  }

  lemma ThrowAgree(a: seq<Monkey>, b: seq<Monkey>, i: nat, x: int, y: int, m: int)
    requires m != 0 && i < |a| && Related(a, b, m) && TestsDivide(a, m) && Ints.Congruent(x, y, m)
    ensures Throw(a, i, x, Modulo(m)).Some? == Throw(b, i, y, Unrelieved).Some?
    ensures Throw(a, i, x, Modulo(m)).Some? ==>
      Related(Throw(a, i, x, Modulo(m)).value, Throw(b, i, y, Unrelieved).value, m)
  {
    InspectAgree(a[i], b[i], x, y, m);
    var ta := Inspect(a[i], x, Modulo(m)).value;
    var tb := Inspect(b[i], y, Unrelieved).value;
    if Seqs.PyIndex(|a|, ta.1).Some? && Seqs.PyIndex(|a|, ta.1).value != i {
      var t := Seqs.PyIndex(|a|, ta.1).value;
      var ca := a[t := a[t].(items := a[t].items + [ta.0])];
      var cb := b[t := b[t].(items := b[t].items + [tb.0])];
      assert Matches(ca[t], cb[t], m) by {
        assert Matches(a[t], b[t], m);
      }
      var ra := ca[i := ca[i].(inspected := ca[i].inspected + 1)];
      var rb := cb[i := cb[i].(inspected := cb[i].inspected + 1)];
      assert Matches(ra[i], rb[i], m) by {
        assert Matches(a[i], b[i], m);
      }
      assert Related(ra, rb, m) by {
        forall k | 0 <= k < |ra|
          ensures Matches(ra[k], rb[k], m)
        {
          if k != i && k != t {
            assert Matches(a[k], b[k], m);
          }
        }
      }
    }
  }

  lemma TestsKeptByThrows(ms: seq<Monkey>, r: seq<Monkey>, i: nat, n: nat, m: int)
    requires i < |ms| && Thrown(ms, r, i, n) && TestsDivide(ms, m)
    ensures TestsDivide(r, m)
  {
    forall k | 0 <= k < |r|
      ensures Ints.Divides(r[k].test, m)
    {
      if k != i {
        assert Same(r[k], ms[k]);
        assert r[k].test == ms[k].test;
      }
    }
  }

  lemma TestsKept(ms: seq<Monkey>, r: seq<Monkey>, m: int)
    requires Kept(ms, r) && TestsDivide(ms, m)
    ensures TestsDivide(r, m)
  {
    forall k | 0 <= k < |r|
      ensures Ints.Divides(r[k].test, m)
    {
      assert Same(r[k], ms[k]);
      assert r[k].test == ms[k].test;
    }
  }

  lemma {:induction false} ThrowAllAgree(a: seq<Monkey>, b: seq<Monkey>, i: nat, xs: seq<int>, ys: seq<int>, m: int)
    requires m != 0 && i < |a| && Related(a, b, m) && TestsDivide(a, m)
    requires |xs| == |ys| && forall j :: 0 <= j < |xs| ==> Ints.Congruent(xs[j], ys[j], m)
    ensures ThrowAll(a, i, xs, Modulo(m)).Some? == ThrowAll(b, i, ys, Unrelieved).Some?
    ensures ThrowAll(a, i, xs, Modulo(m)).Some? ==>
      Related(ThrowAll(a, i, xs, Modulo(m)).value, ThrowAll(b, i, ys, Unrelieved).value, m)
    decreases |xs|
  {
    if |xs| > 0 {
      ThrowAgree(a, b, i, xs[0], ys[0], m);
      if Throw(a, i, xs[0], Modulo(m)).Some? {
        var na := Throw(a, i, xs[0], Modulo(m)).value;
        var nb := Throw(b, i, ys[0], Unrelieved).value;
        ThrowEffect(a, i, xs[0], Modulo(m));
        TestsKeptByThrows(a, na, i, 1, m);
        ThrowAllAgree(na, nb, i, xs[1..], ys[1..], m);
      }
    }
  }

  lemma TurnAgree(a: seq<Monkey>, b: seq<Monkey>, i: nat, m: int)
    requires m != 0 && i < |a| && Related(a, b, m) && TestsDivide(a, m)
    ensures Turn(a, i, Modulo(m)).Some? == Turn(b, i, Unrelieved).Some?
    ensures Turn(a, i, Modulo(m)).Some? ==> Related(Turn(a, i, Modulo(m)).value, Turn(b, i, Unrelieved).value, m)
  {
    assert Matches(a[i], b[i], m);
    ThrowAllAgree(a, b, i, a[i].items, b[i].items, m);
    if ThrowAll(a, i, a[i].items, Modulo(m)).Some? {
      var na := ThrowAll(a, i, a[i].items, Modulo(m)).value;
      var nb := ThrowAll(b, i, b[i].items, Unrelieved).value;
      var ra := na[i := na[i].(items := [])];
      var rb := nb[i := nb[i].(items := [])];
      assert Matches(na[i], nb[i], m);
      forall k | 0 <= k < |ra|
        ensures Matches(ra[k], rb[k], m)
      {
        if k != i {
          assert Matches(na[k], nb[k], m);
        }
      }
    }
  }

  lemma {:induction false} RoundFromAgree(a: seq<Monkey>, b: seq<Monkey>, i: nat, m: int)
    requires m != 0 && i <= |a| && Related(a, b, m) && TestsDivide(a, m)
    ensures RoundFrom(a, i, Modulo(m)).Some? == RoundFrom(b, i, Unrelieved).Some?
    ensures RoundFrom(a, i, Modulo(m)).Some? ==>
      Related(RoundFrom(a, i, Modulo(m)).value, RoundFrom(b, i, Unrelieved).value, m)
    decreases |a| - i
  {
    if i < |a| {
      TurnAgree(a, b, i, m);
      if Turn(a, i, Modulo(m)).Some? {
        var na := Turn(a, i, Modulo(m)).value;
        TurnEffect(a, i, Modulo(m));
        assert Kept(a, na) by {
          forall k | 0 <= k < |a|
            ensures Same(na[k], a[k]) && a[k].inspected <= na[k].inspected
          {
          }
        }
        TestsKept(a, na, m);
        RoundFromAgree(na, Turn(b, i, Unrelieved).value, i + 1, m);
      }
    }
  }

  /**
   * Rounds that keep worry levels modulo a number every test divides fail
   * together with the rounds that keep them whole, and otherwise end with
   * the same counts, the same fixed fields and congruent items.
   */
  lemma {:induction false} RoundsAgree(a: seq<Monkey>, b: seq<Monkey>, n: nat, m: int)
    requires m != 0 && Related(a, b, m) && TestsDivide(a, m)
    ensures Rounds(a, n, Modulo(m)).Some? == Rounds(b, n, Unrelieved).Some?
    ensures Rounds(a, n, Modulo(m)).Some? ==>
      Related(Rounds(a, n, Modulo(m)).value, Rounds(b, n, Unrelieved).value, m)
    decreases n
  {
    if n > 0 {
      RoundFromAgree(a, b, 0, m);
      if Round(a, Modulo(m)).Some? {
        var na := Round(a, Modulo(m)).value;
        RoundFromEffect(a, 0, Modulo(m));
        TestsKept(a, na, m);
        RoundsAgree(na, Round(b, Unrelieved).value, n - 1, m);
      }
    }
  }

  // ---------------------------------------------------------------------
  // Monkey business

  /** `total_inspected` of every monkey, in order. */
  function Counts(ms: seq<Monkey>): (c: seq<nat>)
    ensures |c| == |ms| && forall k :: 0 <= k < |ms| ==> c[k] == ms[k].inspected
  {
    seq(|ms|, k requires 0 <= k < |ms| => ms[k].inspected)
  }

  /**
   * The position of the first highest count other than position `skip`,
   * or -1 when there is none: the head of a stable descending sort of the
   * remaining positions.
   */
  function Top(counts: seq<nat>, skip: int): (r: int)
    ensures -1 <= r < |counts|
  {
    if |counts| == 0 then -1
    else
      var r := Top(counts[..|counts| - 1], skip);
      var last := |counts| - 1;
      if last == skip then r
      else if r == -1 || counts[last] > counts[r] then last
      else r
  }

  /**
   * `Top` finds no position only when there is none besides `skip`; otherwise
   * it finds a position other than `skip` whose count no other position
   * exceeds, and every earlier position has a strictly lower count.
   */
  lemma {:induction false} TopMeaning(counts: seq<nat>, skip: int)
    ensures Top(counts, skip) == -1 <==> |counts| == 0 || (|counts| == 1 && skip == 0)
    ensures Top(counts, skip) != -1 ==>
      var r := Top(counts, skip);
      r != skip &&
      (forall k :: 0 <= k < |counts| && k != skip ==> counts[k] <= counts[r]) &&
      (forall k :: 0 <= k < r && k != skip ==> counts[k] < counts[r])
  {
    if |counts| > 0 {
      var prefix := counts[..|counts| - 1];
      TopMeaning(prefix, skip);
      assert forall k :: 0 <= k < |prefix| ==> prefix[k] == counts[k];
    }
  }

  /** `monkeys[i].total_inspected` for an id `i`. */
  function CountOf(ms: seq<Monkey>, id: int): Option<int>
  {
    match Seqs.PyIndex(|ms|, id)
    case None => None
    case Some(k) => Some(ms[k].inspected)
  }

  /**
   * The monkey business: the ids of the first two monkeys of a stable sort
   * by descending count, each looked up as a position, and the product of
   * their counts.  No monkeys fail (`reduce` of an empty list); one monkey
   * gives its own count.
   */
  function MonkeyBusiness(ms: seq<Monkey>): Option<int>
  {
    var first := Top(Counts(ms), -1);
    var second := Top(Counts(ms), first);
    if first == -1 then None
    else if second == -1 then CountOf(ms, ms[first].id)
    else
      match (CountOf(ms, ms[first].id), CountOf(ms, ms[second].id))
      case (Some(x), Some(y)) => Some(x * y)
      case _ => None
  }

  /** Ids that name their own positions, as in the puzzle input. */
  predicate IdsArePositions(ms: seq<Monkey>)
  {
    forall k :: 0 <= k < |ms| ==> ms[k].id == k
  }

  /**
   * With at least two monkeys whose ids are their positions, the business
   * is the product of the highest count and the highest count among the
   * other monkeys.
   */
  lemma BusinessOfTopTwo(ms: seq<Monkey>)
    requires |ms| >= 2 && IdsArePositions(ms)
    ensures var p := Top(Counts(ms), -1);
      var q := Top(Counts(ms), p);
      0 <= p < |ms| && 0 <= q < |ms| && p != q &&
      (forall k :: 0 <= k < |ms| ==> ms[k].inspected <= ms[p].inspected) &&
      (forall k :: 0 <= k < |ms| && k != p ==> ms[k].inspected <= ms[q].inspected) &&
      MonkeyBusiness(ms) == Some(ms[p].inspected * ms[q].inspected)
  {
    var c := Counts(ms);
    TopMeaning(c, -1);
    TopMeaning(c, Top(c, -1));
  }

  /** A single monkey's business is its own count. */
  lemma BusinessOfOne(ms: seq<Monkey>)
    requires |ms| == 1 && IdsArePositions(ms)
    ensures MonkeyBusiness(ms) == Some(ms[0].inspected)
  {
    TopMeaning(Counts(ms), -1);
    TopMeaning(Counts(ms), 0);
  }

  /** The business depends only on the ids and the counts. */
  lemma BusinessRelated(a: seq<Monkey>, b: seq<Monkey>, m: int)
    requires Related(a, b, m)
    ensures MonkeyBusiness(a) == MonkeyBusiness(b)
  {
    assert Counts(a) == Counts(b) by {
      forall k | 0 <= k < |a|
        ensures a[k].inspected == b[k].inspected
      {
        assert Matches(a[k], b[k], m);
      }
    }
    forall k | 0 <= k < |a|
      ensures a[k].id == b[k].id
    {
      assert Matches(a[k], b[k], m);
    }
  }

  /** `reduce(mul, [monkey.test_num for monkey in monkeys])` for a nonempty list. */
  function Product(ms: seq<Monkey>): int
  {
    if |ms| == 0 then 1 else Product(ms[..|ms| - 1]) * ms[|ms| - 1].test
  }

  /** With no zero test, the product is nonzero and every test divides it. */
  lemma {:induction false} ProductDivides(ms: seq<Monkey>)
    requires forall k :: 0 <= k < |ms| ==> ms[k].test != 0
    ensures Product(ms) != 0 && TestsDivide(ms, Product(ms))
  {
    if |ms| > 0 {
      var n := |ms| - 1;
      var prefix := ms[..n];
      ProductDivides(prefix);
      var p := Product(prefix);
      assert Product(ms) == p * ms[n].test;
      forall k | 0 <= k < |ms|
        ensures Ints.Divides(ms[k].test, Product(ms))
      {
        if k == n {
          Ints.DividesMeaning(ms[n].test, Product(ms), p);
        } else {
          assert prefix[k] == ms[k];
          var t := ms[k].test;
          Ints.DividesMeaning(t, p, 0);
          var j := Ints.DivMod(p, t).0;
          assert Product(ms) == (j * ms[n].test) * t;
          Ints.DividesMeaning(t, Product(ms), j * ms[n].test);
        }
      }
    }
  }

  // ---------------------------------------------------------------------
  // The two parts

  /** Part 1: 20 rounds in which the worry is divided by 3, then the business. */
  function Part1(lines: seq<string>): Option<int>
  {
    match ParseMonkeys(Util.Groups(lines))
    case None => None
    case Some(ms) =>
      match Rounds(ms, 20, Thirds)
      case None => None
      case Some(end) => MonkeyBusiness(end)
  }

  /**
   * Part 2: 10000 rounds in which the worry is kept modulo the product of
   * the tests, then the business.  No monkeys fail (`reduce` of an empty
   * list).
   */
  function Part2(lines: seq<string>): Option<int>
  {
    match ParseMonkeys(Util.Groups(lines))
    case None => None
    case Some(ms) =>
      if |ms| == 0 then None
      else
        match Rounds(ms, 10000, Modulo(Product(ms)))
        case None => None
        case Some(end) => MonkeyBusiness(end)
  }

  /** Related monkeys are related to themselves. */
  lemma RelatedSelf(ms: seq<Monkey>, m: int)
    ensures Related(ms, ms, m)
  {
  }

  /**
   * Keeping the worry modulo the product of the tests gives the answer that
   * keeping it whole would: the reduction changes no throw and no count.
   */
  lemma Part2Unreduced(lines: seq<string>, ms: seq<Monkey>)
    requires ParseMonkeys(Util.Groups(lines)) == Some(ms) && |ms| > 0
    requires forall k :: 0 <= k < |ms| ==> ms[k].test != 0
    ensures Part2(lines) ==
      match Rounds(ms, 10000, Unrelieved)
      case None => None
      case Some(end) => MonkeyBusiness(end)
  {
    var m := Product(ms);
    ProductDivides(ms);
    RelatedSelf(ms, m);
    RoundsAgree(ms, ms, 10000, m);
    if Rounds(ms, 10000, Modulo(m)).Some? {
      BusinessRelated(Rounds(ms, 10000, Modulo(m)).value, Rounds(ms, 10000, Unrelieved).value, m);
    }
  }

  // ---------------------------------------------------------------------
  // The loops of `solve_p1` and `solve_p2`

  /** `for item in monkey.items: ...; monkey.items = []` for the monkey at position `i`. */
  method MonkeyTurn(monkeys: array<Monkey>, i: nat, relief: Relief) returns (ok: bool)
    requires i < monkeys.Length
    modifies monkeys
    ensures ok == Turn(old(monkeys[..]), i, relief).Some?
    ensures ok ==> monkeys[..] == Turn(old(monkeys[..]), i, relief).value
  {
    ghost var start := monkeys[..];
    var items := monkeys[i].items;
    var k := 0;
    while k < |items|
      invariant 0 <= k <= |items|
      invariant ThrowAll(monkeys[..], i, items[k..], relief) == ThrowAll(start, i, items, relief)
    {
      ghost var before := monkeys[..];
      assert items[k..][0] == items[k] && items[k..][1..] == items[k + 1..];
      var thrown := Inspect(monkeys[i], items[k], relief);
      if thrown.None? {
        return false;
      }
      var target := Seqs.PyIndex(monkeys.Length, thrown.value.1);
      if target.None? || target.value == i {
        return false;
      }
      var t := target.value;
      monkeys[t] := monkeys[t].(items := monkeys[t].items + [thrown.value.0]);
      monkeys[i] := monkeys[i].(inspected := monkeys[i].inspected + 1);
      assert Throw(before, i, items[k], relief) == Some(monkeys[..]);
      k := k + 1;
    }
    ghost var thrownAll := monkeys[..];
    monkeys[i] := monkeys[i].(items := []);
    assert monkeys[..] == thrownAll[i := thrownAll[i].(items := [])];
    return true;
  }

  /** `for monkey in monkeys: ...`: one round. */
  method PlayRound(monkeys: array<Monkey>, relief: Relief) returns (ok: bool)
    modifies monkeys
    ensures ok == Round(old(monkeys[..]), relief).Some?
    ensures ok ==> monkeys[..] == Round(old(monkeys[..]), relief).value
  {
    ghost var start := monkeys[..];
    var i := 0;
    while i < monkeys.Length
      invariant 0 <= i <= monkeys.Length
      invariant RoundFrom(monkeys[..], i, relief) == Round(start, relief)
    {
      ok := MonkeyTurn(monkeys, i, relief);
      if !ok {
        return false;
      }
      i := i + 1;
    }
    return true;
  }

  /** `for round in range(1, n + 1): ...`. */
  method PlayRounds(monkeys: array<Monkey>, n: nat, relief: Relief) returns (ok: bool)
    modifies monkeys
    ensures ok == Rounds(old(monkeys[..]), n, relief).Some?
    ensures ok ==> monkeys[..] == Rounds(old(monkeys[..]), n, relief).value
  {
    ghost var start := monkeys[..];
    var done := 0;
    while done < n
      invariant 0 <= done <= n
      invariant Rounds(monkeys[..], n - done, relief) == Rounds(start, n, relief)
    {
      ok := PlayRound(monkeys, relief);
      if !ok {
        return false;
      }
      done := done + 1;
    }
    return true;
  }

  /** The monkeys of the input, in a fresh array. */
  method LoadMonkeys(lines: seq<string>) returns (monkeys: Option<array<Monkey>>)
    ensures monkeys.None? <==> ParseMonkeys(Util.Groups(lines)).None?
    ensures monkeys.Some? ==> fresh(monkeys.value) && monkeys.value[..] == ParseMonkeys(Util.Groups(lines)).value
  {
    var groups := Util.SplitByNewline(lines);
    var parsed := ParseMonkeys(groups);
    if parsed.None? {
      return None;
    }
    var a := ToArray(parsed.value);
    return Some(a);
  }

  /** `list(...)`: the parsed monkeys in a fresh array. */
  method ToArray(ms: seq<Monkey>) returns (a: array<Monkey>)
    ensures fresh(a) && a[..] == ms
  {
    a := new Monkey[|ms|](k requires 0 <= k < |ms| => ms[k]);
  }

  /** `solve_p1`: the monkey business after 20 rounds of part 1. */
  method SolveP1(lines: seq<string>) returns (answer: Option<int>)
    ensures answer == Part1(lines)
  {
    var loaded := LoadMonkeys(lines);
    if loaded.None? {
      return None;
    }
    var monkeys := loaded.value;
    var ok := PlayRounds(monkeys, 20, Thirds);
    if !ok {
      return None;
    }
    answer := MonkeyBusiness(monkeys[..]);
  }

  /** `solve_p2`: the monkey business after 10000 rounds of part 2. */
  method SolveP2(lines: seq<string>) returns (answer: Option<int>)
    ensures answer == Part2(lines)
  {
    var loaded := LoadMonkeys(lines);
    if loaded.None? {
      return None;
    }
    var monkeys := loaded.value;
    if monkeys.Length == 0 {
      return None;
    }
    var superMod := Product(monkeys[..]);
    var ok := PlayRounds(monkeys, 10000, Modulo(superMod));
    if !ok {
      return None;
    }
    answer := MonkeyBusiness(monkeys[..]);
  }
}
