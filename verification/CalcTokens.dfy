/**
 The calculator's token tables (calc.cpp:45-104) and the expressions its users type.

 An expression is modelled twice.  `Tree` is what the user means.  `Expr` is what the user typed:
 the same tree with the parentheses that were actually written as explicit `Group` nodes.
 */
module CalcTokens {

  // Six operators get codes with the top bit set: '\U{BC}' is "<<", '\U{BE}' is ">>" and '\U{C0}' is "!=";
  // '\U{F0}', '\U{F1}' and '\U{F2}' are the memory reads rb( rw( rl(.  The tables compare a character as it is
  // stored with these codes.  Where TCHAR is wide or unsigned, the stored value is the code.  Where it is a signed
  // `char` (od-unix/tchar.h:13 on most targets), the stored value is negative, and equal to no code.

  /** A code as a TCHAR holds it.  The negative value -k is modelled by the character 0x10000 - k. */
  function Stored(signed: bool, c: char): char {
    if signed && '\U{80}' <= c <= '\U{FF}' then (c as int + 0xFF00) as char else c
  }

  function StoredText(signed: bool, s: string): (r: string)
    ensures |r| == |s|
  {
    seq(|s|, i requires 0 <= i < |s| => Stored(signed, s[i]))
  }

  /** The six. */
  predicate Marked(c: char) {
    match c
    case '\U{BC}' | '\U{BE}' | '\U{C0}' | '\U{F0}' | '\U{F1}' | '\U{F2}' => true
    case _ => false
  }

  predicate HasMarked(s: string) { exists c :: c in s && Marked(c) }

  function Preced(c: char): int {
    match c
    case '\U{F0}' | '\U{F1}' | '\U{F2}' | '!' | '~' => 4
    case '*' | '/' | '\\' | '%' | '|' | '&' | '^' => 3
    case '+' | '-' => 2
    case '=' | '@' | '\U{C0}' | '>' | '<' | '\U{BE}' | '\U{BC}' => 1
    case ':' => -1
    case '?' => -2
    case _ => 0
  }

  predicate LeftAssoc(c: char) {
    match c
    case '*' | '/' | '%' | '+' | '-' | '|' | '&' | '^' | '~' | '\U{F0}' | '\U{F1}' | '\U{F2}' => true
    case _ => false
  }

  function ArgCount(c: char): int {
    match c
    case '?' => 3
    case '*' | '/' | '%' | '+' | '-' | '=' | '@' | '\U{C0}' | '<' | '>'
      | '|' | '&' | '^' | '\U{BC}' | '\U{BE}' => 2
    case '!' | ':' | '~' | '\U{F0}' | '\U{F1}' | '\U{F2}' => 1
    case _ => c as int - 'A' as int
  }

  predicate IsOperator(c: char) {
    match c
    case '+' | '-' | '/' | '*' | '!' | '%' | '=' | '~' | '|' | '&' | '^' | '@' | '\U{C0}' | '>' | '<'
      | '\U{BE}' | '\U{BC}' | '?' | ':' | '\U{F0}' | '\U{F1}' | '\U{F2}' => true
    case _ => false
  }

  predicate IsFunction(c: char) { 'A' <= c <= 'Z' }

  predicate IsIdent(c: char) { '0' <= c <= '9' || 'a' <= c <= 'z' }

  /** The binary and the prefix operators that the evaluator implements. */
  predicate IsBinary(c: char) {
    match c
    case '+' | '-' | '*' | '/' | '|' | '&' | '^' | '@' | '\U{C0}' | '>' | '<' | '\U{BC}' | '\U{BE}' => true
    case _ => false
  }

  predicate IsPrefix(c: char) {
    match c
    case '~' | '\U{F0}' | '\U{F1}' | '\U{F2}' => true
    case _ => false
  }

  datatype Tree =
    | Atom(c: char)
    | Prefix(op: char, arg: Tree)
    | Infix(op: char, left: Tree, right: Tree)

  datatype Expr =
    | Leaf(c: char)
    | Group(inner: Expr)
    | Un(op: char, arg: Expr)
    | Bin(op: char, left: Expr, right: Expr)

  /** The expression without its parentheses. */
  function Meaning(e: Expr): Tree {
    match e
    case Leaf(c) => Atom(c)
    case Group(x) => Meaning(x)
    case Un(op, x) => Prefix(op, Meaning(x))
    case Bin(op, l, r) => Infix(op, Meaning(l), Meaning(r))
  }

  function Print(e: Expr): string {
    match e
    case Leaf(c) => [c]
    case Group(x) => "(" + Print(x) + ")"
    case Un(op, x) => [op] + Print(x)
    case Bin(op, l, r) => Print(l) + [op] + Print(r)
  }

  function Postfix(t: Tree): string {
    match t
    case Atom(c) => [c]
    case Prefix(op, x) => Postfix(x) + [op]
    case Infix(op, l, r) => Postfix(l) + Postfix(r) + [op]
  }

  /** How tightly an expression binds: brackets and atoms most, then the operator's precedence. */
  function Level(e: Expr): int {
    match e
    case Leaf(_) => 5
    case Group(_) => 5
    case Un(_, _) => 4
    case Bin(op, _, _) => Preced(op)
  }

  /** The least level an operand of `op` may have without parentheses of its own. */
  function LeftNeed(op: char): int { if LeftAssoc(op) then Preced(op) else Preced(op) + 1 }

  function RightNeed(op: char): int { if LeftAssoc(op) then Preced(op) + 1 else Preced(op) }

  /** The text of `e` carries the parentheses the precedence tables require (more are allowed). */
  predicate Readable(e: Expr) {
    match e
    case Leaf(c) => IsIdent(c)
    case Group(x) => Readable(x)
    case Un(op, x) => IsPrefix(op) && Level(x) >= 5 && Readable(x)
    case Bin(op, l, r) =>
      IsBinary(op) && Level(l) >= LeftNeed(op) && Level(r) >= RightNeed(op) && Readable(l) && Readable(r)
  }

  predicate Supported(t: Tree) {
    match t
    case Atom(c) => IsIdent(c)
    case Prefix(op, x) => IsPrefix(op) && Supported(x)
    case Infix(op, l, r) => IsBinary(op) && Supported(l) && Supported(r)
  }

  // ----- the grammar -----

  /** The texts the calculator understands, as a grammar.  Operators of a layer bind tighter than those of the layers
      below it; products and sums group to the left, comparisons and shifts to the right, and a prefix operator takes an
      identifier or a parenthesis. */
  predicate Primary(e: Expr)
    decreases e, 0
  {
    match e
    case Leaf(c) => '0' <= c <= '9' || 'a' <= c <= 'z'
    case Group(x) => Sentence(x)
    case _ => false
  }

  predicate Factor(e: Expr)
    decreases e, 1
  {
    Primary(e) || (e.Un? && e.op in ['~', '\U{F0}', '\U{F1}', '\U{F2}'] && Primary(e.arg))
  }

  predicate Product(e: Expr)
    decreases e, 2
  {
    Factor(e) || (e.Bin? && e.op in ['*', '/', '|', '&', '^'] && Product(e.left) && Factor(e.right))
  }

  predicate SumOf(e: Expr)
    decreases e, 3
  {
    Product(e) || (e.Bin? && e.op in ['+', '-'] && SumOf(e.left) && Product(e.right))
  }

  predicate Sentence(e: Expr)
    decreases e, 4
  {
    SumOf(e) ||
    (e.Bin? && e.op in ['@', '\U{C0}', '>', '<', '\U{BC}', '\U{BE}'] && SumOf(e.left) && Sentence(e.right))
  }

  /** Each layer is what the precedence tables allow there. */
  lemma {:induction false} GrammarIs(e: Expr)
    ensures Primary(e) <==> Readable(e) && Level(e) >= 5
    ensures Factor(e) <==> Readable(e) && Level(e) >= 4
    ensures Product(e) <==> Readable(e) && Level(e) >= 3
    ensures SumOf(e) <==> Readable(e) && Level(e) >= 2
    ensures Sentence(e) <==> Readable(e)
  {
    match e
    case Leaf(c) =>
    case Group(x) => GrammarIs(x);
    case Un(op, x) => GrammarIs(x);
    case Bin(op, l, r) =>
      GrammarIs(l);
      GrammarIs(r);
  }

  function Wrap(e: Expr, need: int): Expr { if Level(e) >= need then e else Group(e) }

  /** `t` written with no more parentheses than needed. */
  function Write(t: Tree): Expr {
    match t
    case Atom(c) => Leaf(c)
    case Prefix(op, x) => Un(op, Wrap(Write(x), 5))
    case Infix(op, l, r) => Bin(op, Wrap(Write(l), LeftNeed(op)), Wrap(Write(r), RightNeed(op)))
  }

  // ----- texts: blanks may stand anywhere -----

  function Squeeze(s: string): string {
    if s == "" then "" else (if s[0] == ' ' then "" else [s[0]]) + Squeeze(s[1..])
  }

  /** `text` is the text of `e`, with any blanks.  (The reader of values itself puts some after long operators.) */
  predicate Types(text: string, e: Expr) { Squeeze(text) == Print(e) }

  lemma {:induction false} SqueezeKeeps(s: string, c: char)
    requires c in s && c != ' '
    ensures c in Squeeze(s)
  {
    if s[0] != c { SqueezeKeeps(s[1..], c); }
  }

  /** In the text of a readable expression, only the six operators have codes above 0x7f. */
  lemma {:induction false} PrintedCodes(e: Expr, c: char)
    requires Readable(e) && c in Print(e)
    ensures Marked(c) || c < '\U{80}'
  {
    match e
    case Leaf(_) =>
    case Group(x) => if c in Print(x) { PrintedCodes(x, c); }
    case Un(_, x) => if c in Print(x) { PrintedCodes(x, c); }
    case Bin(_, l, r) =>
      if c in Print(l) { PrintedCodes(l, c); } else if c in Print(r) { PrintedCodes(r, c); }
  }

  /** A readable text without the six is stored as it is by every build. */
  lemma StoredAsTyped(signed: bool, text: string, e: Expr)
    requires Readable(e) && Types(text, e) && !(signed && HasMarked(text))
    ensures StoredText(signed, text) == text
  {
    forall i | 0 <= i < |text|
      ensures Stored(signed, text[i]) == text[i]
    {
      if signed && text[i] != ' ' {
        SqueezeKeeps(text, text[i]);
        PrintedCodes(e, text[i]);
      }
    }
  }

  /** Every supported tree can be typed, and what is typed means that tree. */
  lemma WriteIsSentence(t: Tree)
    requires Supported(t)
    ensures Sentence(Write(t)) && Meaning(Write(t)) == t
  {
    WriteIsReadable(t);
    GrammarIs(Write(t));
  }

  lemma {:induction false} WriteIsReadable(t: Tree)
    requires Supported(t)
    ensures Readable(Write(t)) && Meaning(Write(t)) == t
  {
    match t
    case Atom(c) =>
    case Prefix(op, x) => WriteIsReadable(x);
    case Infix(op, l, r) => WriteIsReadable(l); WriteIsReadable(r);
  }
}
