/**
 Evaluating the postfix form: the 32-cell value stack (calc.cpp:484-605), and the theorem about the whole
 calculator (calc.cpp:107-239 followed by calc.cpp:484-605).

 Numbers are values of a type `V`; what the operators compute is a parameter.  A cell holds an
 identifier or a number and keeps the other field's stale contents, as in the program, because the
 ternary operator looks at the raw number.
 */
module CalcRpn {
  import opened Options
  import opened CalcTokens
  import Y = CalcYard

  const STACK_SIZE := 32

  datatype Arith<!V> = Arith(
    zero: V,
    atom: char -> V,              // the value of an identifier: a parsed number, or a digit
    binary: (char, V, V) -> V,
    prefix: (char, V) -> V)

  datatype Cell<V> = Cell(s: Option<char>, val: V)

  function CellValue<V>(m: Arith<V>, c: Cell<V>): V {
    match c.s
    case Some(name) => m.atom(name)
    case None => c.val
  }

  /** One operator on numbers; none for the operators that have no implementation. */
  function Docalcx<V>(m: Arith<V>, op: char, v1: V, v2: V): Option<V> {
    if IsBinary(op) then Some(m.binary(op, v1, v2))
    else if IsPrefix(op) then Some(m.prefix(op, v1))
    else if op == ':' then Some(v1)
    else None
  }

  // ----- the function computed -----

  datatype Machine<V> = Machine(cells: seq<Cell<V>>, sl: nat, val: V)

  predicate Fits<V>(x: Machine<V>) { |x.cells| == STACK_SIZE && x.sl <= STACK_SIZE }

  /** The number an operator or function leaves in `val`. */
  function Result<V(==)>(m: Arith<V>, c: char, x: Machine<V>): V
    requires Fits(x) && (IsOperator(c) || IsFunction(c)) && ArgCount(c) <= x.sl
  {
    if IsFunction(c) then x.val
    else if ArgCount(c) == 1 then
      match Docalcx(m, c, CellValue(m, x.cells[x.sl - 1]), x.val)
      case Some(v) => v
      case None => x.val
    else if ArgCount(c) == 2 then
      match Docalcx(m, c, CellValue(m, x.cells[x.sl - 2]), CellValue(m, x.cells[x.sl - 1]))
      case Some(v) => v
      case None => m.zero
    else
      CellValue(m, x.cells[if x.cells[x.sl - 3].val != m.zero then x.sl - 2 else x.sl - 1])
  }

  function Step<V(==)>(m: Arith<V>, c: char, x: Machine<V>): (r: Option<Machine<V>>)
    requires Fits(x) && x.sl < STACK_SIZE
    ensures r.Some? ==> Fits(r.value)
  {
    if IsIdent(c) then Some(x.(cells := x.cells[x.sl := x.cells[x.sl].(s := Some(c))], sl := x.sl + 1))
    else if IsOperator(c) || IsFunction(c) then
      if x.sl < ArgCount(c) then None
      else
        var v := Result(m, c, x);
        var sl := x.sl - ArgCount(c);
        Some(Machine(x.cells[sl := Cell(None, v)], sl + 1, v))
    else Some(x)
  }

  function Run<V(==)>(m: Arith<V>, input: string, x: Machine<V>): (r: Option<Machine<V>>)
    requires Fits(x)
    ensures r.Some? ==> Fits(r.value)
  {
    if input == "" then Some(x)
    else if x.sl >= STACK_SIZE then None
    else
      match Step(m, input[0], x)
      case None => None
      case Some(z) => Run(m, input[1..], z)
  }

  /** The answer: the last number computed, provided one value is left. */
  function Execute<V(==)>(m: Arith<V>, input: string, cells: seq<Cell<V>>): Option<V>
    requires |cells| == STACK_SIZE
  {
    match Run(m, input, Machine(cells, 0, m.zero))
    case None => None
    case Some(x) => if x.sl == 1 then Some(x.val) else None
  }

  // ----- the loop -----

  method ExecutionOrder<V(==)>(m: Arith<V>, input: string, stack: array<Cell<V>>) returns (ok: bool, outval: V)
    requires stack.Length == STACK_SIZE
    modifies stack
    ensures Execute(m, input, old(stack[..])) == if ok then Some(outval) else None
  {
    var sl := 0;
    var val := m.zero;
    var strpos := 0;
    outval := m.zero;
    assert input[0..] == input;
    while strpos < |input|
      invariant 0 <= strpos <= |input| && 0 <= sl <= STACK_SIZE
      invariant Run(m, input, Machine(old(stack[..]), 0, m.zero)) ==
                Run(m, input[strpos..], Machine(stack[..], sl, val))
    {
      if sl >= STACK_SIZE { return false, outval; }
      assert input[strpos..][1..] == input[strpos + 1..];
      ok, sl, val := ExecuteToken(m, input[strpos], stack, sl, val);
      if !ok { return; }
      strpos := strpos + 1;
    }
    ok := sl == 1;
    if ok { outval := val; }
  }

  /** The body of the evaluating loop, entered with a free cell. */
  method ExecuteToken<V(==)>(m: Arith<V>, c: char, stack: array<Cell<V>>, sl0: nat, val0: V)
    returns (ok: bool, sl: nat, val: V)
    requires stack.Length == STACK_SIZE && sl0 < STACK_SIZE
    modifies stack
    ensures sl <= STACK_SIZE
    ensures Step(m, c, Machine(old(stack[..]), sl0, val0)) ==
            if ok then Some(Machine(stack[..], sl, val)) else None
  {
    ok, sl, val := true, sl0, val0;
    ghost var x := Machine(stack[..], sl0, val0);
    if IsIdent(c) {
      stack[sl] := stack[sl].(s := Some(c));
      sl := sl + 1;
      assert stack[..] == x.cells[sl0 := x.cells[sl0].(s := Some(c))];
    } else if IsOperator(c) || IsFunction(c) {
      var nargs := ArgCount(c);
      if sl < nargs { ok := false; return; }
      if IsFunction(c) {
        sl := sl - nargs;
      } else if nargs == 1 {
        var r := Docalcx(m, c, CellValue(m, stack[sl - 1]), val);
        if r.Some? { val := r.value; }
        sl := sl - 1;
      } else if nargs == 2 {
        var r := Docalcx(m, c, CellValue(m, stack[sl - 2]), CellValue(m, stack[sl - 1]));
        val := m.zero;
        if r.Some? { val := r.value; }
        sl := sl - 2;
      } else {
        var chosen := stack[sl - 1];
        if stack[sl - 3].val != m.zero { chosen := stack[sl - 2]; }
        sl := sl - 3;
        val := CellValue(m, chosen);
      }
      stack[sl] := Cell(None, val);
      assert stack[..] == x.cells[sl := Cell(None, val)];
      sl := sl + 1;
    }
  }

  // ----- what the function means -----

  /** The value of the expression the user meant. */
  function Eval<V>(m: Arith<V>, t: Tree): V {
    match t
    case Atom(c) => m.atom(c)
    case Prefix(op, x) => m.prefix(op, Eval(m, x))
    case Infix(op, l, r) => m.binary(op, Eval(m, l), Eval(m, r))
  }

  /** The most values on the stack when a token of the tree's postfix form is read. */
  function Depth(t: Tree): nat {
    match t
    case Atom(_) => 0
    case Prefix(_, x) => Y.Max(Depth(x), 1)
    case Infix(_, l, r) => Y.Max(Depth(l), Y.Max(1 + Depth(r), 2))
  }

  /** The machine after a whole subexpression: one more value, the ones below untouched. */
  ghost predicate Computed<V>(m: Arith<V>, t: Tree, x: Machine<V>, z: Machine<V>) {
    Fits(x) && Fits(z) && z.sl == x.sl + 1 && z.cells[..x.sl] == x.cells[..x.sl] &&
    CellValue(m, z.cells[x.sl]) == Eval(m, t) &&
    z.val == if t.Atom? then x.val else Eval(m, t)
  }

  lemma RunHead<V>(m: Arith<V>, c: char, rest: string, x: Machine<V>)
    requires Fits(x)
    ensures Run(m, [c] + rest, x) ==
            if x.sl >= STACK_SIZE then None
            else match Step(m, c, x) case None => None case Some(z) => Run(m, rest, z)
  {
    assert ([c] + rest)[1..] == rest;
  }

  /** Running the postfix form of a subexpression pushes its value, or overflows; nothing else. */
  lemma {:induction false} RunPostfix<V>(m: Arith<V>, t: Tree, rest: string, x: Machine<V>) returns (z: Machine<V>)
    requires Supported(t) && Fits(x)
    ensures x.sl + Depth(t) < STACK_SIZE ==>
              Computed(m, t, x, z) && Run(m, Postfix(t) + rest, x) == Run(m, rest, z)
    ensures x.sl + Depth(t) >= STACK_SIZE ==> Run(m, Postfix(t) + rest, x) == None
    decreases t
  {
    z := x;
    match t
    case Atom(c) =>
      RunHead(m, c, rest, x);
      if x.sl < STACK_SIZE { z := Step(m, c, x).value; }
    case Prefix(op, a) =>
      assert Postfix(t) + rest == Postfix(a) + ([op] + rest);
      var y := RunPostfix(m, a, [op] + rest, x);
      if x.sl + Depth(a) < STACK_SIZE {
        RunHead(m, op, rest, y);
        if y.sl < STACK_SIZE { z := StepPrefix(m, op, a, x, y); }
      }
    case Infix(op, l, r) =>
      var tail := Postfix(r) + ([op] + rest);
      assert Postfix(t) + rest == Postfix(l) + tail;
      var y := RunPostfix(m, l, tail, x);
      if x.sl + Depth(l) < STACK_SIZE {
        var w := RunPostfix(m, r, [op] + rest, y);
        if y.sl + Depth(r) < STACK_SIZE {
          RunHead(m, op, rest, w);
          if w.sl < STACK_SIZE { z := StepInfix(m, op, l, r, x, y, w); }
        }
      }
  }

  lemma StepPrefix<V>(m: Arith<V>, op: char, a: Tree, x: Machine<V>, y: Machine<V>) returns (z: Machine<V>)
    requires IsPrefix(op) && Computed(m, a, x, y) && y.sl < STACK_SIZE
    ensures Step(m, op, y) == Some(z) && Computed(m, Prefix(op, a), x, z)
  {
    assert ArgCount(op) == 1;
    z := Step(m, op, y).value;
  }

  lemma StepInfix<V>(m: Arith<V>, op: char, l: Tree, r: Tree, x: Machine<V>, y: Machine<V>, w: Machine<V>)
    returns (z: Machine<V>)
    requires IsBinary(op) && Computed(m, l, x, y) && Computed(m, r, y, w) && w.sl < STACK_SIZE
    ensures Step(m, op, w) == Some(z) && Computed(m, Infix(op, l, r), x, z)
  {
    assert ArgCount(op) == 2;
    assert w.cells[x.sl] == w.cells[..y.sl][x.sl] == y.cells[..y.sl][x.sl];
    assert w.cells[..x.sl] == w.cells[..y.sl][..x.sl] == y.cells[..x.sl];
    z := Step(m, op, w).value;
    assert z.cells[..x.sl] == w.cells[..x.sl];
  }

  // ----- the whole calculator -----

  function Calc<V(==)>(m: Arith<V>, input: string, cells: seq<Cell<V>>): Option<V>
    requires |cells| == STACK_SIZE
  {
    match Y.Convert(input)
    case None => None
    case Some(postfix) => Execute(m, postfix, cells)
  }

  /** For any text of the grammar, and any earlier stack contents: the answer is
      the value of the tree, except that a lone identifier answers zero, and that the calculator fails
      exactly when the operator stack or the value stack fills up, or when TCHAR is signed and the text has one of
      the operators << >> != rb( rw( rl(. */
  lemma CalcPreservesMeaning<V>(m: Arith<V>, signed: bool, e: Expr, text: string, cells: seq<Cell<V>>)
    requires Sentence(e) && Types(text, e) && |cells| == 32
    ensures Calc(m, StoredText(signed, text), cells) ==
            if signed && HasMarked(text) then None
            else if Y.Height(e) >= 32 || Depth(Meaning(e)) >= 32 then None
            else if Meaning(e).Atom? then Some(m.zero)
            else Some(Eval(m, Meaning(e)))
  {
    hide Readable, Sentence, Types, Print, Postfix, StoredText, HasMarked, Y.Height, Y.Convert, Supported;
    Y.ConvertPrinted(signed, e, text);
    GrammarIs(e);
    ReadableMeans(e);
    var z := RunPostfix(m, Meaning(e), "", Machine(cells, 0, m.zero));
    assert Postfix(Meaning(e)) + "" == Postfix(Meaning(e));
  }

  lemma {:induction false} ReadableMeans(e: Expr)
    requires Readable(e)
    ensures Supported(Meaning(e))
  {
    match e
    case Leaf(_) =>
    case Group(x) => ReadableMeans(x);
    case Un(_, x) => ReadableMeans(x);
    case Bin(_, l, r) => ReadableMeans(l); ReadableMeans(r);
  }

  /** The same for a tree typed with the fewest parentheses. */
  lemma CalcComputesTree<V>(m: Arith<V>, signed: bool, t: Tree, text: string, cells: seq<Cell<V>>)
    requires Supported(t) && !t.Atom? && Types(text, Write(t)) && |cells| == 32
    requires Y.Height(Write(t)) < 32 && Depth(t) < 32
    ensures Y.Convert(StoredText(signed, text)) == if signed && HasMarked(text) then None else Some(Postfix(t))
    ensures Calc(m, StoredText(signed, text), cells) == if signed && HasMarked(text) then None else Some(Eval(m, t))
  {
    WriteIsSentence(t);
    Y.ConvertPrinted(signed, Write(t), text);
    CalcPreservesMeaning(m, signed, Write(t), text, cells);
  }

  const SHIFT_LEFT := '\U{BC}'

  /** What the reader of values makes of "1<<2": two names, the code of the operator and a blank. */
  function OneShiftedByTwo(): string { ['a', SHIFT_LEFT, ' ', 'b'] }

  /** A wide or unsigned TCHAR gives the shifted number, a signed one no answer. */
  lemma ShiftNeedsUnsigned<V>(m: Arith<V>, signed: bool, cells: seq<Cell<V>>)
    requires |cells| == STACK_SIZE
    ensures Calc(m, StoredText(signed, OneShiftedByTwo()), cells) ==
            if signed then None else Some(m.binary(SHIFT_LEFT, m.atom('a'), m.atom('b')))
  {
    hide StoredText, Print, Postfix, Calc, Squeeze, HasMarked;
    var text, t := OneShiftedByTwo(), Infix(SHIFT_LEFT, Atom('a'), Atom('b'));
    assert Types(text, Write(t)) by { TypedShift(); }
    assert HasMarked(text) by { TypedShift(); }
    CalcComputesTree(m, signed, t, text, cells);
  }

  lemma TypedShift()
    ensures Types(OneShiftedByTwo(), Write(Infix(SHIFT_LEFT, Atom('a'), Atom('b')))) && HasMarked(OneShiftedByTwo())
  {
    var text := OneShiftedByTwo();
    assert text[1..] == [SHIFT_LEFT, ' ', 'b'] && text[1..][1..] == " b" && " b"[1..] == "b" && "b"[1..] == "";
    assert Squeeze(" b") == Squeeze("b") == "b";
    assert text[1] in text && Marked(text[1]);
  }

  /** Nor would the machine know such an operator: it steps over a negative TCHAR. */
  lemma RunSkips<V>(m: Arith<V>, c: char, rest: string, x: Machine<V>)
    requires Fits(x) && Marked(c)
    ensures Run(m, [Stored(true, c)] + rest, x) == if x.sl >= STACK_SIZE then None else Run(m, rest, x)
  {
    RunHead(m, Stored(true, c), rest, x);
  }

  /** The ternary operator does not test its first operand but the number that lies behind it: of three identifiers, the
      second is chosen or the third by what an earlier calculation has left in the first cell. */
  lemma TernaryTestsLeftover<V>(m: Arith<V>, x: char, y: char, z: char, cells: seq<Cell<V>>)
    requires IsIdent(x) && IsIdent(y) && IsIdent(z) && |cells| == 32
    ensures Execute(m, [x, y, z, '?'], cells) == Some(m.atom(if cells[0].val != m.zero then y else z))
  {
    assert [x, y, z, '?'] == [x] + [y, z, '?'] && [y, z, '?'] == [y] + [z, '?'] && [z, '?'] == [z] + ['?'];
    assert ['?'] == ['?'] + "";
    var m0 := Machine(cells, 0, m.zero);
    RunHead(m, x, [y, z, '?'], m0);
    var m1 := Step(m, x, m0).value;
    RunHead(m, y, [z, '?'], m1);
    var m2 := Step(m, y, m1).value;
    RunHead(m, z, ['?'], m2);
    var m3 := Step(m, z, m2).value;
    RunHead(m, '?', "", m3);
  }
}
