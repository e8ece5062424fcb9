/**
 Infix to postfix: the shunting-yard converter (calc.cpp:107-239).

 `ShuntingYard` is the program's loop over its 32-slot operator stack.  `Convert` is the function it
 computes, and `ConvertPrinted` says what that function means: it turns the text of an expression
 into the postfix form of the tree that text denotes, and gives up exactly when the operator stack is full
 at the start of some token.
 */
module CalcYard {
  import opened Options
  import opened CalcTokens

  const STACK_SIZE := 32

  /** True when operator `c`, just read, first moves the operator `top` to the output. */
  predicate Yields(c: char, top: char) {
    IsOperator(top) &&
    ((LeftAssoc(c) && Preced(c) <= Preced(top)) || (!LeftAssoc(c) && Preced(c) < Preced(top)))
  }

  // ----- the function computed -----

  datatype Yard = Yard(stack: string, out: string)

  function Pop(y: Yard): Yard
    requires y.stack != ""
  {
    Yard(y.stack[..|y.stack| - 1], y.out + [y.stack[|y.stack| - 1]])
  }

  function Top(y: Yard): char
    requires y.stack != ""
  {
    y.stack[|y.stack| - 1]
  }

  function PopYielding(c: char, y: Yard): Yard
    decreases |y.stack|
  {
    if y.stack != "" && Yields(c, Top(y)) then PopYielding(c, Pop(y)) else y
  }

  /** Pops down to the nearest '(' and leaves it in place. */
  function PopToParen(y: Yard): (r: Option<Yard>)
    ensures r.Some? ==> r.value.stack != ""
    decreases |y.stack|
  {
    if y.stack == "" then None
    else if Top(y) == '(' then Some(y)
    else PopToParen(Pop(y))
  }

  function CloseParen(y: Yard): Option<Yard> {
    match PopToParen(y)
    case None => None
    case Some(z) => Some(LeaveGroup(z))
  }

  /** Drops the parenthesis on top, and takes the function name below it to the output. */
  function LeaveGroup(y: Yard): Yard
    requires y.stack != ""
  {
    var w := Yard(y.stack[..|y.stack| - 1], y.out);
    if w.stack != "" && IsFunction(Top(w)) then Pop(w) else w
  }

  function Push(c: char, y: Yard): Yard { y.(stack := y.stack + [c]) }

  function Token(c: char, y: Yard): Option<Yard> {
    if c == ' ' then Some(y)
    else if IsIdent(c) then Some(y.(out := y.out + [c]))
    else if IsFunction(c) then Some(Push(c, y))
    else if c == ',' then PopToParen(y)
    else if IsOperator(c) then Some(Push(c, PopYielding(c, y)))
    else if c == '(' then Some(Push(c, y))
    else if c == ')' then CloseParen(y)
    else None
  }

  function Scan(input: string, y: Yard): Option<Yard> {
    if input == "" then Some(y)
    else if |y.stack| >= STACK_SIZE then None
    else
      match Token(input[0], y)
      case None => None
      case Some(z) => Scan(input[1..], z)
  }

  function Flush(y: Yard): Option<string>
    decreases |y.stack|
  {
    if y.stack == "" then Some(y.out)
    else if Top(y) == '(' || Top(y) == ')' then None
    else Flush(Pop(y))
  }

  function Convert(input: string): Option<string> {
    match Scan(input, Yard("", ""))
    case None => None
    case Some(y) => Flush(y)
  }

  // ----- the loop -----

  /** The operator stack is an array and a length; `output` grows by one character at a time. */
  method ShuntingYard(input: string) returns (ok: bool, output: string)
    ensures ok == Convert(input).Some?
    ensures ok ==> Convert(input) == Some(output)
  {
    var stack := new char[STACK_SIZE];
    var sl := 0;
    var strpos := 0;
    output := "";
    assert stack[..sl] == "" && input[0..] == input;
    while strpos < |input|
      invariant 0 <= strpos <= |input| && 0 <= sl <= STACK_SIZE
      invariant Scan(input, Yard("", "")) == Scan(input[strpos..], Yard(stack[..sl], output))
    {
      if sl >= STACK_SIZE { return false, output; }
      assert input[strpos..][1..] == input[strpos + 1..];
      ok, sl, output := ReadToken(input[strpos], stack, sl, output);
      if !ok { return; }
      strpos := strpos + 1;
    }
    while sl > 0
      invariant 0 <= sl <= STACK_SIZE
      invariant Convert(input) == Flush(Yard(stack[..sl], output))
    {
      var sc := stack[sl - 1];
      if sc == '(' || sc == ')' { return false, output; }
      assert stack[..sl][..sl - 1] == stack[..sl - 1];
      output := output + [sc];
      sl := sl - 1;
    }
    return true, output;
  }

  /** The body of the reading loop, entered with a free stack slot. */
  method ReadToken(c: char, stack: array<char>, sl0: nat, out0: string) returns (ok: bool, sl: nat, out: string)
    requires sl0 < stack.Length
    modifies stack
    ensures sl <= stack.Length
    ensures ok == Token(c, Yard(old(stack[..sl0]), out0)).Some?
    ensures ok ==> Token(c, Yard(old(stack[..sl0]), out0)) == Some(Yard(stack[..sl], out))
  {
    ok, sl, out := true, sl0, out0;
    if c == ' ' {
    } else if IsIdent(c) {
      out := out + [c];
    } else if IsFunction(c) {
      stack[sl] := c;
      sl := sl + 1;
      assert stack[..sl] == old(stack[..sl0]) + [c];
    } else if c == ',' {
      ok, sl, out := DropToParen(stack, sl, out);
    } else if IsOperator(c) {
      sl, out := DropYielding(c, stack, sl, out);
      stack[sl] := c;
      sl := sl + 1;
      assert stack[..sl] == old(stack[..sl - 1]) + [c];
    } else if c == '(' {
      stack[sl] := c;
      sl := sl + 1;
      assert stack[..sl] == old(stack[..sl0]) + [c];
    } else if c == ')' {
      ok, sl, out := DropToParen(stack, sl, out);
      if ok {
        assert stack[..sl][..sl - 1] == stack[..sl - 1];
        sl := sl - 1;
        if sl > 0 && IsFunction(stack[sl - 1]) {
          assert stack[..sl][..sl - 1] == stack[..sl - 1];
          out := out + [stack[sl - 1]];
          sl := sl - 1;
        }
      }
    } else {
      ok := false;
    }
  }

  /** The inner loop of the operator case. */
  method DropYielding(c: char, stack: array<char>, sl0: nat, out0: string) returns (sl: nat, out: string)
    requires sl0 <= stack.Length
    ensures sl <= sl0
    ensures Yard(stack[..sl], out) == PopYielding(c, Yard(stack[..sl0], out0))
  {
    sl, out := sl0, out0;
    while sl > 0 && Yields(c, stack[sl - 1])
      invariant 0 <= sl <= sl0
      invariant PopYielding(c, Yard(stack[..sl0], out0)) == PopYielding(c, Yard(stack[..sl], out))
    {
      assert stack[..sl][..sl - 1] == stack[..sl - 1];
      out := out + [stack[sl - 1]];
      sl := sl - 1;
    }
  }

  /** The inner loop of the ',' and ')' cases: `pe` says that a '(' was found. */
  method DropToParen(stack: array<char>, sl0: nat, out0: string) returns (pe: bool, sl: nat, out: string)
    requires sl0 <= stack.Length
    ensures sl <= sl0 && (pe ==> sl > 0)
    ensures pe == PopToParen(Yard(stack[..sl0], out0)).Some?
    ensures pe ==> PopToParen(Yard(stack[..sl0], out0)) == Some(Yard(stack[..sl], out))
  {
    sl, out := sl0, out0;
    pe := false;
    while sl > 0
      invariant 0 <= sl <= sl0 && !pe
      invariant PopToParen(Yard(stack[..sl0], out0)) == PopToParen(Yard(stack[..sl], out))
    {
      var sc := stack[sl - 1];
      if sc == '(' {
        pe := true;
        break;
      }
      assert stack[..sl][..sl - 1] == stack[..sl - 1];
      out := out + [sc];
      sl := sl - 1;
    }
  }

  // ----- what the function means -----

  /** Operators of `e` still on the stack when its text has been read, bottom first. */
  function Pending(e: Expr): string {
    match e
    case Leaf(_) => ""
    case Group(_) => ""
    case Un(op, x) => [op] + Pending(x)
    case Bin(op, _, r) => [op] + Pending(r)
  }

  /** What has been output when the text of `e` has been read. */
  function Emitted(e: Expr): string {
    match e
    case Leaf(c) => [c]
    case Group(x) => Postfix(Meaning(x))
    case Un(_, x) => Emitted(x)
    case Bin(_, l, r) => Postfix(Meaning(l)) + Emitted(r)
  }

  function Max(a: int, b: int): int { if a >= b then a else b }

  /** The deepest the operator stack is, above where it started, when a token of `e` is read. */
  function Height(e: Expr): nat {
    match e
    case Leaf(_) => 0
    case Group(x) => 1 + Max(Height(x), |Pending(x)|)
    case Un(_, x) => 1 + Height(x)
    case Bin(_, l, r) => Max(Max(Height(l), |Pending(l)|), 1 + Height(r))
  }

  /** An operand of this level leaves the operator on top of the stack alone. */
  function Shield(stack: string): int {
    if stack == "" || !IsOperator(stack[|stack| - 1]) then 0 else RightNeed(stack[|stack| - 1])
  }

  function Reverse(s: string): string { if s == "" then "" else Reverse(s[1..]) + [s[0]] }

  lemma {:induction false} EmittedThenPending(e: Expr)
    ensures Emitted(e) + Reverse(Pending(e)) == Postfix(Meaning(e))
  {
    match e
    case Leaf(_) =>
    case Group(_) =>
    case Un(op, x) =>
      EmittedThenPending(x);
      ReverseHead(op, Pending(x));
      Regroup(Emitted(x), Reverse(Pending(x)), [op]);
    case Bin(op, l, r) =>
      EmittedThenPending(r);
      ReverseHead(op, Pending(r));
      EmittedInfix(Postfix(Meaning(l)), Emitted(r), Reverse(Pending(r)), [op]);
  }

  lemma ReverseHead(c: char, s: string)
    ensures Reverse([c] + s) == Reverse(s) + [c]
  {
    assert ([c] + s)[1..] == s;
  }

  lemma EmittedInfix(a: string, b: string, c: string, d: string)
    ensures (a + b) + (c + d) == (a + (b + c)) + d
  {
  }

  /** Every pending operator is one of the expression's, and binds at least as tightly as it does. */
  lemma {:induction false} PendingLevels(e: Expr)
    requires Readable(e)
    ensures forall i :: 0 <= i < |Pending(e)| ==>
              (IsBinary(Pending(e)[i]) || IsPrefix(Pending(e)[i])) && Preced(Pending(e)[i]) >= Level(e)
  {
    match e
    case Leaf(_) =>
    case Group(_) =>
    case Un(op, x) => PendingLevels(x);
    case Bin(op, l, r) => PendingLevels(r);
  }

  lemma PopLast(base: string, ops: string, out: string)
    requires ops != ""
    ensures var n, y := |ops| - 1, Yard(base + ops, out);
            y.stack != "" && Top(y) == ops[n] && Pop(y) == Yard(base + ops[..n], out + [ops[n]])
  {
    assert (base + ops)[..|base + ops| - 1] == base + ops[..|ops| - 1];
  }

  lemma ReverseLast(ops: string, c: char, out: string)
    ensures (out + [c]) + Reverse(ops) == out + Reverse(ops + [c])
  {
    hide Reverse;
    ReverseAppend(ops, c);
    Regroup(out, [c], Reverse(ops));
  }

  lemma {:induction false} PopAllYielding(c: char, base: string, ops: string, out: string)
    requires forall i :: 0 <= i < |ops| ==> Yields(c, ops[i])
    requires base == "" || !Yields(c, base[|base| - 1])
    ensures PopYielding(c, Yard(base + ops, out)) == Yard(base, out + Reverse(ops))
    decreases |ops|
  {
    hide Yields, Pop, Top, Reverse;
    if ops == "" {
      assert base + ops == base && out + Reverse(ops) == out by { ReverseNothing(out); }
      if base != "" { TopIs(base, out); }
    } else {
      var n := |ops| - 1;
      PopLast(base, ops, out);
      ReverseLast(ops[..n], ops[n], out);
      assert ops[..n] + [ops[n]] == ops;
      PopAllYielding(c, base, ops[..n], out + [ops[n]]);
    }
  }

  lemma ReverseNothing(out: string)
    ensures out + Reverse("") == out
  {
  }

  lemma TopIs(stack: string, out: string)
    requires stack != ""
    ensures Top(Yard(stack, out)) == stack[|stack| - 1]
  {
  }

  lemma {:induction false} ReverseAppend(s: string, c: char)
    ensures Reverse(s + [c]) == [c] + Reverse(s)
  {
    if s != "" {
      ReverseAppend(s[1..], c);
      assert (s + [c])[1..] == s[1..] + [c];
    }
  }

  lemma {:induction false} PopAllToParen(base: string, ops: string, out: string)
    requires forall i :: 0 <= i < |ops| ==> ops[i] != '('
    ensures PopToParen(Yard(base + ['('] + ops, out)) == Some(Yard(base + ['('], out + Reverse(ops)))
    decreases |ops|
  {
    if ops == "" {
      assert base + ['('] + ops == base + ['('];
      assert out + Reverse(ops) == out;
    } else {
      var n := |ops| - 1;
      var s := base + ['('] + ops;
      assert s[..|s| - 1] == base + ['('] + ops[..n];
      PopAllToParen(base, ops[..n], out + [ops[n]]);
      assert ops == ops[..n] + [ops[n]];
      ReverseAppend(ops[..n], ops[n]);
      assert out + [ops[n]] + Reverse(ops[..n]) == out + ([ops[n]] + Reverse(ops[..n]));
    }
  }

  lemma {:induction false} FlushAll(ops: string, out: string)
    requires forall i :: 0 <= i < |ops| ==> ops[i] != '(' && ops[i] != ')'
    ensures Flush(Yard(ops, out)) == Some(out + Reverse(ops))
    decreases |ops|
  {
    if ops == "" {
      assert out + Reverse(ops) == out;
    } else {
      var n := |ops| - 1;
      FlushAll(ops[..n], out + [ops[n]]);
      assert ops == ops[..n] + [ops[n]];
      ReverseAppend(ops[..n], ops[n]);
      assert out + [ops[n]] + Reverse(ops[..n]) == out + ([ops[n]] + Reverse(ops[..n]));
    }
  }

  /** Reading one token off the front of a text. */
  lemma ScanHead(c: char, rest: string, y: Yard)
    ensures Scan([c] + rest, y) ==
            if |y.stack| >= STACK_SIZE then None
            else match Token(c, y) case None => None case Some(z) => Scan(rest, z)
  {
    assert ([c] + rest)[1..] == rest;
  }

  /** What lies under an operand: nothing, a parenthesis, or one of the implemented operators. */
  predicate Base(stack: string) {
    stack == "" || var top := stack[|stack| - 1]; top == '(' || IsBinary(top) || IsPrefix(top)
  }

  lemma ShieldStops(c: char, stack: string)
    requires Base(stack) && stack != ""
    requires (IsBinary(c) || IsPrefix(c)) && Preced(c) >= Shield(stack)
    ensures !Yields(c, stack[|stack| - 1])
  {
  }

  lemma LevelYields(op: char, inner: char)
    requires IsBinary(op) && (IsBinary(inner) || IsPrefix(inner)) && Preced(inner) >= LeftNeed(op)
    ensures Yields(op, inner)
  {
  }

  /** Where the reader stands after the text of `e`, having started at `y`. */
  function After(e: Expr, y: Yard): Yard { Yard(y.stack + Pending(e), y.out + Emitted(e)) }

  /** An operand that binds tightly enough is read without touching the stack below it; the reader
      gives up exactly when the stack would be full at one of its tokens. */
  lemma {:induction false} ScanPrinted(e: Expr, rest: string, y: Yard)
    requires Readable(e) && Level(e) >= Shield(y.stack) && Base(y.stack)
    ensures Scan(Print(e) + rest, y) ==
            if |y.stack| + Height(e) < STACK_SIZE then Scan(rest, After(e, y)) else None
    decreases e, 1
  {
    match e
    case Leaf(c) =>
      ScanHead(c, rest, y);
      assert After(e, y).stack == y.stack;
    case Group(x) => ScanGroup(e, rest, y);
    case Un(op, x) => ScanPrefix(e, rest, y);
    case Bin(op, l, r) => ScanInfix(e, rest, y);
  }

  lemma {:induction false} ScanPrefix(e: Expr, rest: string, y: Yard)
    requires e.Un? && Readable(e) && Level(e) >= Shield(y.stack) && Base(y.stack)
    ensures Scan(Print(e) + rest, y) ==
            if |y.stack| + Height(e) < STACK_SIZE then Scan(rest, After(e, y)) else None
    decreases e, 0
  {
    hide Token, Readable;
    var Un(op, x) := e;
    assert IsPrefix(op) && Level(x) >= 5 && Readable(x) by { UnIsReadable(e); }
    assert Print(e) + rest == [op] + (Print(x) + rest);
    ScanHead(op, Print(x) + rest, y);
    TokenOperator(op, y);
    if y.stack != "" { ShieldStops(op, y.stack); }
    ScanPrinted(x, rest, Push(op, y));
    Regroup(y.stack, [op], Pending(x));
  }

  lemma UnIsReadable(e: Expr)
    requires e.Un? && Readable(e)
    ensures IsPrefix(e.op) && Level(e.arg) >= 5 && Readable(e.arg)
  {
  }

  lemma {:induction false} ScanGroup(e: Expr, rest: string, y: Yard)
    requires e.Group? && Readable(e) && Base(y.stack)
    ensures Scan(Print(e) + rest, y) ==
            if |y.stack| + Height(e) < STACK_SIZE then Scan(rest, After(e, y)) else None
    decreases e, 0
  {
    hide CloseParen;
    var x := e.inner;
    assert Print(e) + rest == ['('] + (Print(x) + ([')'] + rest));
    ScanHead('(', Print(x) + ([')'] + rest), y);
    if |y.stack| < STACK_SIZE {
      var z := Push('(', y);
      ScanPrinted(x, [')'] + rest, z);
      ScanHead(')', rest, After(x, z));
      CloseGroup(e, y);
    }
  }

  lemma CloseParenAfter(base: string, ops: string, out: string)
    requires Base(base)
    requires forall i :: 0 <= i < |ops| ==> ops[i] != '('
    ensures CloseParen(Yard(base + ['('] + ops, out)) == Some(Yard(base, out + Reverse(ops)))
  {
    PopAllToParen(base, ops, out);
    LeaveBase(base, out + Reverse(ops));
  }

  lemma LeaveBase(base: string, out: string)
    requires Base(base)
    ensures LeaveGroup(Yard(base + ['('], out)) == Yard(base, out)
  {
    var v := base + ['('];
    assert v[..|v| - 1] == base;
  }

  lemma CloseGroup(e: Expr, y: Yard)
    requires e.Group? && Readable(e) && Base(y.stack)
    ensures Token(')', After(e.inner, Push('(', y))) == Some(After(e, y))
  {
    var x := e.inner;
    PendingLevels(x);
    CloseParenAfter(y.stack, Pending(x), y.out + Emitted(x));
    Regroup(y.out, Emitted(x), Reverse(Pending(x)));
    EmittedThenPending(x);
    assert y.stack + "" == y.stack;
  }

  lemma Regroup(a: string, b: string, c: string)
    ensures (a + b) + c == a + (b + c)
  {
  }

  lemma {:induction false} ScanInfix(e: Expr, rest: string, y: Yard)
    requires e.Bin? && Readable(e) && Level(e) >= Shield(y.stack) && Base(y.stack)
    ensures Scan(Print(e) + rest, y) ==
            if |y.stack| + Height(e) < STACK_SIZE then Scan(rest, After(e, y)) else None
    decreases e, 0
  {
    hide Token;
    var Bin(op, l, r) := e;
    var tail := [op] + (Print(r) + rest);
    assert Print(e) + rest == Print(l) + tail;
    ScanPrinted(l, tail, y);
    if |y.stack| + Height(l) < STACK_SIZE {
      ScanHead(op, Print(r) + rest, After(l, y));
      PushInfix(e, y);
      var z := Yard(y.stack + [op], y.out + Postfix(Meaning(l)));
      ScanPrinted(r, rest, z);
      assert After(r, z) == After(e, y) by {
        Regroup(y.stack, [op], Pending(r));
        Regroup(y.out, Postfix(Meaning(l)), Emitted(r));
      }
    }
  }

  lemma PushInfix(e: Expr, y: Yard)
    requires e.Bin? && Readable(e) && Level(e) >= Shield(y.stack) && Base(y.stack)
    ensures Token(e.op, After(e.left, y)) == Some(Yard(y.stack + [e.op], y.out + Postfix(Meaning(e.left))))
  {
    var Bin(op, l, r) := e;
    PendingLevels(l);
    forall i | 0 <= i < |Pending(l)| ensures Yields(op, Pending(l)[i]) { LevelYields(op, Pending(l)[i]); }
    if y.stack != "" { ShieldStops(op, y.stack); }
    PopAllYielding(op, y.stack, Pending(l), y.out + Emitted(l));
    Regroup(y.out, Emitted(l), Reverse(Pending(l)));
    EmittedThenPending(l);
    TokenOperator(op, After(l, y));
  }

  lemma TokenOperator(c: char, y: Yard)
    requires IsBinary(c) || IsPrefix(c)
    ensures Token(c, y) == Some(Push(c, PopYielding(c, y)))
  {
  }

  // ----- blanks, and how characters are stored -----

  /** Blanks make no difference, except that a text may not end in blanks behind a full stack. */
  lemma {:induction false} ScanSqueezed(s: string, y: Yard)
    ensures Scan(s, y) == Scan(Squeeze(s), y) ||
            (Scan(s, y) == None && Scan(Squeeze(s), y).Some? && |Scan(Squeeze(s), y).value.stack| >= STACK_SIZE)
    decreases |s|
  {
    hide Token;
    if s != "" {
      if s[0] == ' ' {
        assert Squeeze(s) == Squeeze(s[1..]);
        assert Token(' ', y) == Some(y) by { Blank(y); }
        ScanSqueezed(s[1..], y);
      } else {
        ScanHead(s[0], Squeeze(s[1..]), y);
        match Token(s[0], y)
        case None =>
        case Some(z) => ScanSqueezed(s[1..], z);
      }
    }
  }

  lemma Blank(y: Yard)
    ensures Token(' ', y) == Some(y)
  {
  }

  /** A negative TCHAR is in no class of tokens: the reader gives up on it, whatever else the text holds. */
  lemma {:induction false} ScanUnknown(s: string, y: Yard, i: nat)
    requires i < |s| && Marked(s[i])
    ensures Scan(StoredText(true, s), y) == None
    decreases |s|
  {
    hide Token;
    var t := StoredText(true, s);
    if i == 0 {
      assert Token(t[0], y) == None by { Unknown(s[0], y); }
    } else {
      assert t[1..] == StoredText(true, s[1..]);
      match Token(t[0], y)
      case None =>
      case Some(z) => ScanUnknown(s[1..], z, i - 1);
    }
  }

  lemma Unknown(c: char, y: Yard)
    requires Marked(c)
    ensures Token(Stored(true, c), y) == None
  {
  }

  lemma {:induction false} PendingFits(e: Expr)
    ensures |Pending(e)| <= Height(e)
  {
    match e
    case Leaf(_) =>
    case Group(_) =>
    case Un(_, x) => PendingFits(x);
    case Bin(_, _, r) => PendingFits(r);
  }

  lemma ConvertSqueezed(e: Expr, text: string)
    requires Readable(e) && Types(text, e)
    ensures Convert(text) == if Height(e) < STACK_SIZE then Some(Postfix(Meaning(e))) else None
  {
    hide Flush, Pending, Emitted, Postfix, Meaning, Reverse;
    var y := Yard("", "");
    ScanPrinted(e, "", y);
    assert Print(e) + "" == Print(e);
    assert After(e, y) == Yard(Pending(e), Emitted(e));
    ScanSqueezed(text, y);
    PendingFits(e);
    PendingLevels(e);
    FlushAll(Pending(e), Emitted(e));
    EmittedThenPending(e);
  }

  /** The converter's contract for texts of the grammar: postfix of the tree the text denotes; failure exactly when the
      32 slots do not suffice, or when TCHAR is signed and the text has one of the six operators with a top bit. */
  lemma ConvertPrinted(signed: bool, e: Expr, text: string)
    requires Sentence(e) && Types(text, e)
    ensures Convert(StoredText(signed, text)) ==
            if (signed && HasMarked(text)) || Height(e) >= 32 then None else Some(Postfix(Meaning(e)))
  {
    hide Convert, StoredText, Postfix, Meaning, Readable, Sentence;
    GrammarIs(e);
    if signed && HasMarked(text) {
      var c :| c in text && Marked(c);
      var i :| 0 <= i < |text| && text[i] == c;
      MarkedFails(text, i);
    } else {
      StoredAsTyped(signed, text, e);
      ConvertSqueezed(e, text);
    }
  }

  lemma MarkedFails(text: string, i: nat)
    requires i < |text| && Marked(text[i])
    ensures Convert(StoredText(true, text)) == None
  {
    ScanUnknown(text, Yard("", ""), i);
  }

  // ----- what binds tighter -----

  /** The end of such a text: behind an operator on the stack, a second one and an identifier. */
  lemma SecondOperator(o: char, p: char, z: char, out: string)
    requires IsIdent(z) && IsOperator(o) && IsOperator(p)
    ensures var y := Scan([p] + [z], Yard([o], out));
            y.Some? && Flush(y.value) == Some(if Yields(p, o) then out + [o, z, p] else out + [z, p, o])
  {
    hide Yields, Token, Flush, Reverse;
    assert [z] == [z] + "";
    ScanHead(p, [z], Yard([o], out));
    OperatesNext(p, o, out);
    var w := if Yields(p, o) then Yard([p], out + [o]) else Yard([o, p], out);
    ScanHead(z, "", w);
    Reads(z, w);
    FlushShort(o, p, w.out + [z]);
    assert (out + [o]) + [z, p] == out + [o, z, p] && out + [z, p, o] == (out + [z]) + [p, o];
    assert ((out + [o]) + [z]) + [p] == out + [o, z, p];
  }

  lemma FlushShort(o: char, p: char, out: string)
    requires IsOperator(o) && IsOperator(p)
    ensures Flush(Yard([p], out)) == Some(out + [p]) && Flush(Yard([o, p], out)) == Some(out + [p, o])
  {
    hide Flush, Reverse;
    FlushAll([p], out);
    FlushAll([o, p], out);
    ReverseShort(o, p);
  }

  /** The text of two operators between identifiers: the first is taken out before the second, or after it. */
  lemma TwoOperators(x: char, o: char, y: char, p: char, z: char)
    requires IsIdent(x) && IsIdent(y) && IsIdent(z) && IsOperator(o) && IsOperator(p)
    ensures Convert([x, o, y, p, z]) == Some(if Yields(p, o) then [x, y, o, z, p] else [x, y, z, p, o])
  {
    hide Yields, Token, Flush;
    assert [x, o, y, p, z] == [x] + [o, y, p, z] && [o, y, p, z] == [o] + [y, p, z] && [y, p, z] == [y] + ([p] + [z]);
    ScanHead(x, [o, y, p, z], Yard("", ""));
    Reads(x, Yard("", ""));
    assert "" + [x] == [x];
    ScanHead(o, [y, p, z], Yard("", [x]));
    OperatesFirst(o, [x]);
    ScanHead(y, [p] + [z], Yard([o], [x]));
    Reads(y, Yard([o], [x]));
    SecondOperator(o, p, z, [x] + [y]);
    assert ([x] + [y]) + [o, z, p] == [x, y, o, z, p] && ([x] + [y]) + [z, p, o] == [x, y, z, p, o];
  }

  lemma Reads(c: char, y: Yard)
    requires IsIdent(c)
    ensures Token(c, y) == Some(Yard(y.stack, y.out + [c]))
  {
  }

  lemma OperatesFirst(c: char, out: string)
    requires IsOperator(c)
    ensures Token(c, Yard("", out)) == Some(Yard([c], out))
  {
    hide Yields;
    Operates(c, Yard("", out));
    assert "" + [c] == [c];
  }

  lemma Operates(c: char, y: Yard)
    requires IsOperator(c)
    ensures Token(c, y) == Some(Push(c, PopYielding(c, y)))
  {
  }

  lemma OperatesNext(c: char, top: char, out: string)
    requires IsOperator(c)
    ensures Token(c, Yard([top], out)) == Some(if Yields(c, top) then Yard([c], out + [top]) else Yard([top, c], out))
  {
    hide Yields;
    Operates(c, Yard([top], out));
    assert Pop(Yard([top], out)) == Yard("", out + [top]);
    assert PopYielding(c, Yard("", out + [top])) == Yard("", out + [top]);
    assert [top] + [c] == [top, c] && "" + [c] == [c];
  }

  lemma ReverseShort(a: char, b: char)
    ensures Reverse([b]) == [b] && Reverse([a, b]) == [b, a]
  {
    assert [b][1..] == "" && [a, b][1..] == [b];
    assert Reverse([b]) == Reverse("") + [b];
  }

  /** Products bind tighter than sums, and sums tighter than comparisons and shifts. */
  lemma TighterFirst(x: char, y: char, z: char, loose: char, tight: char)
    requires IsIdent(x) && IsIdent(y) && IsIdent(z)
    requires (loose in ['+', '-'] && tight in ['*', '/', '%', '|', '&', '^']) ||
             (loose in ['=', '@', '\U{C0}', '>', '<', '\U{BE}', '\U{BC}'] &&
              tight in ['+', '-', '*', '/', '%', '|', '&', '^'])
    ensures Convert([x, loose, y, tight, z]) == Some([x, y, z, tight, loose])
    ensures Convert([x, tight, y, loose, z]) == Some([x, y, tight, z, loose])
  {
    hide Convert;
    TwoOperators(x, loose, y, tight, z);
    TwoOperators(x, tight, y, loose, z);
  }

  /** Products and sums group to the left, comparisons and shifts to the right. */
  lemma Grouping(x: char, y: char, z: char, o: char, p: char)
    requires IsIdent(x) && IsIdent(y) && IsIdent(z)
    ensures var sums, products := ['+', '-'], ['*', '/', '%', '|', '&', '^'];
            (o in sums && p in sums) || (o in products && p in products) ==>
              Convert([x, o, y, p, z]) == Some([x, y, o, z, p])
    ensures var lowest := ['=', '@', '\U{C0}', '>', '<', '\U{BE}', '\U{BC}'];
            o in lowest && p in lowest ==> Convert([x, o, y, p, z]) == Some([x, y, z, p, o])
  {
    hide Convert, IsIdent;
    if IsOperator(o) && IsOperator(p) {
      TwoOperators(x, o, y, p, z);
      SameLayer(o, p);
    }
  }

  lemma SameLayer(o: char, p: char)
    ensures o in ['+', '-'] && p in ['+', '-'] ==> Yields(p, o)
    ensures o in ['*', '/', '%', '|', '&', '^'] && p in ['*', '/', '%', '|', '&', '^'] ==> Yields(p, o)
    ensures var lowest := ['=', '@', '\U{C0}', '>', '<', '\U{BE}', '\U{BC}'];
            o in lowest && p in lowest ==> !Yields(p, o)
  {
  }

  /** A prefix operator comes before every binary one, on either side of it. */
  lemma PrefixFirst(x: char, y: char, q: char, o: char)
    requires IsIdent(x) && IsIdent(y) && q in ['!', '~', '\U{F0}', '\U{F1}', '\U{F2}']
    requires o in ['+', '-', '*', '/', '%', '|', '&', '^', '=', '@', '\U{C0}', '>', '<', '\U{BE}', '\U{BC}']
    ensures Convert([q, x, o, y]) == Some([x, q, y, o]) && Convert([x, o, q, y]) == Some([x, y, q, o])
  {
    hide Convert;
    assert IsOperator(q) && IsOperator(o) && Yields(o, q) && !Yields(q, o);
    PrefixBefore(x, y, q, o);
    PrefixBehind(x, y, q, o);
  }

  lemma PrefixBefore(x: char, y: char, q: char, o: char)
    requires IsIdent(x) && IsIdent(y) && IsOperator(q) && IsOperator(o) && Yields(o, q)
    ensures Convert([q, x, o, y]) == Some([x, q, y, o])
  {
    hide Yields, Token, Flush;
    assert [q, x, o, y] == [q] + [x, o, y] && [x, o, y] == [x] + ([o] + [y]);
    ScanHead(q, [x, o, y], Yard("", ""));
    OperatesFirst(q, "");
    ScanHead(x, [o] + [y], Yard([q], ""));
    Reads(x, Yard([q], ""));
    SecondOperator(q, o, y, "" + [x]);
    assert ("" + [x]) + [q, y, o] == [x, q, y, o];
  }

  lemma PrefixBehind(x: char, y: char, q: char, o: char)
    requires IsIdent(x) && IsIdent(y) && IsOperator(q) && IsOperator(o) && !Yields(q, o)
    ensures Convert([x, o, q, y]) == Some([x, y, q, o])
  {
    hide Yields, Token, Flush;
    assert [x, o, q, y] == [x] + [o, q, y] && [o, q, y] == [o] + ([q] + [y]);
    ScanHead(x, [o, q, y], Yard("", ""));
    Reads(x, Yard("", ""));
    ScanHead(o, [q] + [y], Yard("", "" + [x]));
    OperatesFirst(o, "" + [x]);
    SecondOperator(o, q, y, "" + [x]);
    assert ("" + [x]) + [y, q, o] == [x, y, q, o];
  }
}
