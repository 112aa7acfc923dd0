/** The instructions that compute a value from one or two others. */
module Scalars {
  import opened Values
  import opened Wrappers

  datatype UnaryOp = Not | Type | Length

  datatype BinaryOp = And | Or | Eq | Le | Lt | Add | Sub | Mul

  /** strncmp over the first n characters: the sign of the first difference, and 0 when
      there is none or the texts end together before it. */
  function Compare(x: string, y: string, n: nat): int
    requires n <= |x| && n <= |y|
    decreases n
  {
    if n == 0 then 0
    else if x[0] < y[0] then -1
    else if y[0] < x[0] then 1
    else if x[0] == '\0' then 0
    else Compare(x[1..], y[1..], n - 1)
  }

  function Min(x: nat, y: nat): nat {
    if x < y then x else y
  }

  function Order(x: string, y: string): int {
    Compare(x, y, Min(|x|, |y|))
  }

  /** A C int after the overflow of its 32 bits. */
  function Wrap(n: int): CInt {
    (n + 0x8000_0000) % 0x1_0000_0000 - 0x8000_0000
  }

  /** The value an instruction with one source stores, or None when it raises. */
  function Unary(op: UnaryOp, x: Value<nat, CInt>, text: nat -> string): (r: Option<Value<nat, CInt>>)
    ensures r.Some? ==> !r.value.String?
  {
    match op
    case Not => if x.Bool? then Some(Bool(!x.b)) else None
    case Type => Some(Int(TypeNumber(x)))
    case Length => if x.String? then Some(Int(|text(x.address)| % 0x1_0000)) else None
  }

  function Equal(x: Value<nat, CInt>, y: Value<nat, CInt>, text: nat -> string): bool {
    match (x, y)
    case (Int(i), Int(j)) => i == j
    case (Bool(b), Bool(c)) => b == c
    case (String(a), String(b)) =>
      |text(a)| == |text(b)| && Compare(text(a), text(b), |text(a)|) == 0
    case _ => false
  }

  /** The value an instruction with two sources stores, or None when it raises. The sum,
      difference or product of two floats is given as `rounded`. */
  function Binary(op: BinaryOp, x: Value<nat, CInt>, y: Value<nat, CInt>, rounded: bv32, text: nat -> string)
    : (r: Option<Value<nat, CInt>>)
    ensures r.Some? ==> !r.value.String?
  {
    match op
    case And => if x.Bool? && y.Bool? then Some(Bool(x.b && y.b)) else None
    case Or => if x.Bool? && y.Bool? then Some(Bool(x.b || y.b)) else None
    case Eq => Some(Bool(Equal(x, y, text)))
    case Le =>
      if x.Int? && y.Int? then Some(Bool(x.i <= y.i))
      else if x.String? && y.String? then Some(Bool(Order(text(x.address), text(y.address)) <= 0))
      else None
    case Lt =>
      if x.Int? && y.Int? then Some(Bool(x.i < y.i))
      else if x.String? && y.String? then Some(Bool(Order(text(x.address), text(y.address)) < 0))
      else None
    case Add => Arithmetic(x, y, rounded, (i, j) => i + j)
    case Sub => Arithmetic(x, y, rounded, (i, j) => i - j)
    case Mul => Arithmetic(x, y, rounded, (i, j) => i * j)
  }

  function Arithmetic(x: Value<nat, CInt>, y: Value<nat, CInt>, rounded: bv32, f: (int, int) -> int)
    : Option<Value<nat, CInt>>
  {
    if x.Int? && y.Int? then Some(Int(Wrap(f(x.i, y.i))))
    else if x.Float? && y.Float? then Some(Float(rounded))
    else None
  }

  lemma {:induction false} CompareMirrors(x: string, y: string, n: nat)
    requires n <= |x| && n <= |y|
    ensures Compare(x, y, n) == -Compare(y, x, n)
    decreases n
  {
    if n > 0 && x[0] == y[0] {
      CompareMirrors(x[1..], y[1..], n - 1);
    }
  }

  /** What EQ finds equal: the same ints, the same booleans, and strings of one length that
      are the same, at least up to a terminator that both have. Nothing else equals anything. */
  lemma EqualExactly(x: Value<nat, CInt>, y: Value<nat, CInt>, text: nat -> string)
    ensures Equal(x, y, text) <==>
      || (x.Int? && x == y)
      || (x.Bool? && x == y)
      || (x.String? && y.String? && |text(x.address)| == |text(y.address)|
          && (text(x.address) == text(y.address) || EndTogether(text(x.address), text(y.address))))
  {
    if x.String? && y.String? {
      OrderZero(text(x.address), text(y.address));
    }
  }

  /** On ints LT and LE are the order of the numbers. */
  lemma IntOrder(x: CInt, y: CInt, f: bv32, text: nat -> string)
    ensures Binary(Lt, Int(x), Int(y), f, text) == Some(Bool(x < y))
    ensures Binary(Le, Int(x), Int(y), f, text) == Some(Bool(x < y || x == y))
  {
  }

  /** On ints ADD, SUB and MUL are those of the numbers whenever a C int can hold the result,
      and always up to a multiple of 2^32. */
  lemma IntArithmetic(x: CInt, y: CInt, f: bv32, text: nat -> string)
    ensures forall op :: op == Add || op == Sub || op == Mul ==>
      var exact := if op == Add then x + y else if op == Sub then x - y else x * y;
      var r := Binary(op, Int(x), Int(y), f, text);
      && r.Some? && r.value.Int? && (r.value.i - exact) % 0x1_0000_0000 == 0
      && (-0x8000_0000 <= exact < 0x8000_0000 <==> r.value.i == exact)
  {
    WrapsBy(x + y);
    WrapsBy(x - y);
    WrapsBy(x * y);
  }

  lemma WrapsBy(n: int)
    ensures (Wrap(n) - n) % 0x1_0000_0000 == 0
    ensures -0x8000_0000 <= n < 0x8000_0000 <==> Wrap(n) == n
  {
    var q := (n + 0x8000_0000) / 0x1_0000_0000;
    assert Wrap(n) - n == -q * 0x1_0000_0000;
  }

  /** Arithmetic needs two ints or two floats; of floats it stores the rounded result. */
  lemma ArithmeticTypes(op: BinaryOp, x: Value<nat, CInt>, y: Value<nat, CInt>, f: bv32, text: nat -> string)
    requires op.Add? || op.Sub? || op.Mul?
    ensures Binary(op, x, y, f, text).Some? <==> (x.Int? && y.Int?) || (x.Float? && y.Float?)
    ensures x.Float? && y.Float? ==> Binary(op, x, y, f, text) == Some(Float(f))
  {
  }

  /** The truth tables. */
  lemma LogicTables(x: Value<nat, CInt>, y: Value<nat, CInt>, f: bv32, text: nat -> string)
    ensures Binary(And, x, y, f, text) == Some(Bool(true)) <==> x == y == Bool(true)
    ensures Binary(And, x, y, f, text) == None <==> !(x.Bool? && y.Bool?)
    ensures Binary(Or, x, y, f, text) == Some(Bool(false)) <==> x == y == Bool(false)
    ensures Binary(Or, x, y, f, text) == None <==> !(x.Bool? && y.Bool?)
    ensures Unary(Not, x, text) == Some(Bool(true)) <==> x == Bool(false)
    ensures Unary(Not, x, text) == Some(Bool(false)) <==> x == Bool(true)
    ensures Unary(Not, x, text) == None <==> !x.Bool?
    ensures Binary(And, x, y, f, text).Some? ==> Binary(And, x, y, f, text).value.Bool?
    ensures Binary(Or, x, y, f, text).Some? ==> Binary(Or, x, y, f, text).value.Bool?
  {
  }

  /** TYPE answers the numbers of src/types.h. */
  lemma TypeNumbers(x: Value<nat, CInt>, text: nat -> string)
    ensures Unary(Type, x, text) == Some(Int(
      match x
      case Nil => 0
      case Bool(_) => 1
      case Int(_) => 2
      case Float(_) => 3
      case String(_) => 4
      case Objref(_) => 5
      case Special(_) => 6))
  {
  }

  /** LENGTH counts the characters, up to what 16 bits hold, and needs a string. */
  lemma LengthCounts(x: Value<nat, CInt>, text: nat -> string)
    ensures Unary(Length, x, text) == None <==> !x.String?
    ensures x.String? ==>
      var r := Unary(Length, x, text);
      r.Some? && r.value.Int? && (r.value.i == |text(x.address)| <==> |text(x.address)| < 0x1_0000)
  {
  }

  /** EQ is symmetric, and reflexive exactly on ints, booleans and strings: nil, floats
      and object references never equal anything, themselves included. */
  lemma EqualLaws(x: Value<nat, CInt>, y: Value<nat, CInt>, text: nat -> string)
    ensures Equal(x, y, text) == Equal(y, x, text)
    ensures Equal(x, x, text) <==> x.Int? || x.Bool? || x.String?
  {
    if x.String? {
      CompareMirrors(text(x.address), text(x.address), |text(x.address)|);
      if y.String? && |text(x.address)| == |text(y.address)| {
        CompareMirrors(text(x.address), text(y.address), |text(x.address)|);
      }
    }
  }

  /** LT is the negation of LE with the operands exchanged, wherever either is defined. */
  lemma LessIsNotGreater(x: Value<nat, CInt>, y: Value<nat, CInt>, f: bv32, g: bv32, text: nat -> string)
    ensures Binary(Lt, x, y, f, text) ==
      (match Binary(Le, y, x, g, text) case Some(Bool(b)) => Some(Bool(!b)) case _ => None)
  {
    if x.String? && y.String? {
      CompareMirrors(text(x.address), text(y.address), Min(|text(x.address)|, |text(y.address)|));
    }
  }

  // ----- strings: the length comparison that is lost -----

  /** The texts are the same up to a terminator that both have. */
  ghost predicate EndTogether(x: string, y: string) {
    exists k :: 0 <= k < |x| && k < |y| && x[k] == '\0' && x[..k + 1] == y[..k + 1]
  }

  lemma EndTogetherStep(x: string, y: string)
    requires x != "" && y != "" && x[0] == y[0] && x[0] != '\0'
    ensures EndTogether(x, y) <==> EndTogether(x[1..], y[1..])
  {
    if k :| 0 <= k < |x| && k < |y| && x[k] == '\0' && x[..k + 1] == y[..k + 1] {
      assert x[1..][..k] == x[..k + 1][1..] && y[1..][..k] == y[..k + 1][1..];
      assert x[1..][k - 1] == '\0' && x[1..][..k - 1 + 1] == y[1..][..k - 1 + 1];
    }
    if k :| 0 <= k < |x[1..]| && k < |y[1..]| && x[1..][k] == '\0' && x[1..][..k + 1] == y[1..][..k + 1] {
      assert x[..k + 2] == [x[0]] + x[1..][..k + 1] && y[..k + 2] == [y[0]] + y[1..][..k + 1];
      assert x[k + 1] == '\0' && x[..k + 1 + 1] == y[..k + 1 + 1];
    }
  }

  lemma OrderStep(x: string, y: string)
    requires x != "" && y != "" && x[0] == y[0] && x[0] != '\0'
    ensures Order(x, y) == Order(x[1..], y[1..])
    ensures x <= y <==> x[1..] <= y[1..]
  {
    if x[1..] <= y[1..] {
      assert x == [x[0]] + x[1..] && y == [y[0]] + y[1..];
    }
    if x <= y {
      assert x[1..] == y[1..][..|x| - 1];
    }
  }

  /** The comparison finds no difference exactly when one text is a prefix of the other, or
      both end at a terminator before they differ. */
  lemma {:induction false} OrderZero(x: string, y: string)
    ensures Order(x, y) == 0 <==> x <= y || y <= x || EndTogether(x, y)
    decreases |x|
  {
    if x != "" && y != "" && x[0] == y[0] {
      if x[0] == '\0' {
        assert x[..0 + 1] == y[..0 + 1];
      } else {
        OrderStep(x, y);
        OrderStep(y, x);
        EndTogetherStep(x, y);
        OrderZero(x[1..], y[1..]);
      }
    }
  }

  /** LE and LT as the code means them: between equal beginnings the lengths decide. The code
      makes this comparison and then overwrites its result. */
  predicate LeByLength(x: string, y: string) {
    if Order(x, y) == 0 then |x| <= |y| else Order(x, y) < 0
  }

  predicate LtByLength(x: string, y: string) {
    if Order(x, y) == 0 then |x| < |y| else Order(x, y) < 0
  }

  /** LE on strings answers as meant unless the second one is shorter and a prefix of the
      first, or ends with it; LT unless the first one is. */
  lemma LengthLost(x: string, y: string)
    ensures (Order(x, y) <= 0 <==> LeByLength(x, y)) <==> !(|y| < |x| && (y <= x || EndTogether(x, y)))
    ensures (Order(x, y) < 0 <==> LtByLength(x, y)) <==> !(|x| < |y| && (x <= y || EndTogether(x, y)))
  {
    OrderZero(x, y);
    assert |y| < |x| ==> !(x <= y);
    assert |x| < |y| ==> !(y <= x);
  }

  /** The order of words in a dictionary. */
  predicate Lex(x: string, y: string) {
    x == "" || (y != "" && (x[0] < y[0] || (x[0] == y[0] && Lex(x[1..], y[1..]))))
  }

  /** What is meant is the dictionary order on texts without terminators. */
  lemma {:induction false} LeByLengthIsLex(x: string, y: string)
    requires '\0' !in x && '\0' !in y
    ensures LeByLength(x, y) <==> Lex(x, y)
    decreases |x|
  {
    if x != "" && y != "" && x[0] == y[0] {
      OrderStep(x, y);
      LeByLengthIsLex(x[1..], y[1..]);
    }
  }

  lemma {:induction false} LexIsTotalOrder(x: string, y: string, z: string)
    ensures Lex(x, y) || Lex(y, x)
    ensures Lex(x, y) && Lex(y, x) ==> x == y
    ensures Lex(x, y) && Lex(y, z) ==> Lex(x, z)
    decreases |x|
  {
    if x != "" && y != "" {
      LexIsTotalOrder(x[1..], y[1..], if z == "" then "" else z[1..]);
      assert x == [x[0]] + x[1..] && y == [y[0]] + y[1..];
    }
  }

  /** LE as coded is not an order: it is not transitive exactly between two texts that share
      the beginning in the middle, terminators or not. */
  lemma {:induction false} LeTransitiveUnless(x: string, y: string, z: string)
    ensures (Order(x, y) <= 0 && Order(y, z) <= 0 ==> Order(x, z) <= 0)
      <==> !(y <= x && y <= z && Order(x, z) > 0)
    decreases |x|
  {
    if x != "" && y != "" && z != "" {
      if x[0] == y[0] == z[0] && x[0] != '\0' {
        OrderStep(x, y);
        OrderStep(y, x);
        OrderStep(y, z);
        OrderStep(x, z);
        LeTransitiveUnless(x[1..], y[1..], z[1..]);
      }
    }
  }

  lemma LeIsNotTransitive()
    ensures Order("b", "") <= 0 && Order("", "a") <= 0 && !(Order("b", "a") <= 0)
  {
  }
}
