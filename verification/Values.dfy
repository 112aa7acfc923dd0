/** The 64-bit tagged words the virtual machine keeps in its cells: three type bits below a payload. */
module Values {
  type Word = bv64

  const TYPE_NIL: bv64 := 0
  const TYPE_BOOL: bv64 := 1
  const TYPE_INT: bv64 := 2
  const TYPE_FLOAT: bv64 := 3
  const TYPE_STRING: bv64 := 4
  const TYPE_OBJREF: bv64 := 5
  const TYPE_SPECIAL: bv64 := 6

  function TypeOf(v: Word): bv64 {
    v & 7
  }

  /** A C int widened to 64 bits, as the cast in val_make_int does. Ints, and likewise
      floats, are the 32 bits that represent them. */
  function SignExtend(i: bv32): bv64 {
    (i as bv64) | SignBits(i)
  }

  function SignBits(i: bv32): bv64 {
    if i < 0x8000_0000 then 0 else 0xFFFF_FFFF_0000_0000
  }

  /** The conversion of a 64-bit value to a C int. */
  function Truncate(v: bv64): bv32 {
    (v & 0xFFFF_FFFF) as bv32
  }

  function MakeNil(): Word {
    0
  }

  function MakeBool(b: bool): Word {
    ((if b then 1 else 0) << 4) | TYPE_BOOL
  }

  function MakeInt(i: bv32): Word {
    (SignExtend(i) << 4) | TYPE_INT
  }

  function MakeFloat(bits: bv32): Word {
    ((bits as bv64) << 4) | TYPE_FLOAT
  }

  function MakeObjref(id: bv64): Word
    requires id < 0x100_0000_0000
  {
    (id << 4) | TYPE_OBJREF
  }

  predicate Aligned(address: bv64) {
    address & 7 == 0
  }

  function MakePointer(address: bv64, tag: bv64): Word
    requires Aligned(address) && (tag == TYPE_STRING || tag == TYPE_SPECIAL)
  {
    address | tag
  }

  function GetBool(v: Word): bool
    requires TypeOf(v) == TYPE_BOOL
  {
    v >> 4 != 0
  }

  function GetInt(v: Word): bv32
    requires TypeOf(v) == TYPE_INT
  {
    Truncate(v >> 4)
  }

  function GetFloat(v: Word): bv32
    requires TypeOf(v) == TYPE_FLOAT
  {
    Truncate(v >> 4)
  }

  function GetObjref(v: Word): bv64
    requires TypeOf(v) == TYPE_OBJREF
  {
    v >> 4
  }

  function GetPointer(v: Word): bv64 {
    v & 0xFFFF_FFFF_FFFF_FFF8
  }

  /** The values of a C int. */
  type CInt = n: int | -0x8000_0000 <= n < 0x8000_0000

  /** What a word says, type and payload apart. P is how addresses and ids are given and N how
      ints are: as bits here, as plain numbers in the machine. */
  datatype Value<P, N> =
    | Nil
    | Bool(b: bool)
    | Int(i: N)
    | Float(bits: bv32)
    | String(address: P)
    | Objref(id: P)
    | Special(address: P)

  /** The type number of a value. */
  function Tag<P, N>(m: Value<P, N>): bv64 {
    match m
    case Nil => TYPE_NIL
    case Bool(_) => TYPE_BOOL
    case Int(_) => TYPE_INT
    case Float(_) => TYPE_FLOAT
    case String(_) => TYPE_STRING
    case Objref(_) => TYPE_OBJREF
    case Special(_) => TYPE_SPECIAL
  }

  /** The same numbers as TYPE answers them. */
  function TypeNumber<P, N>(m: Value<P, N>): CInt {
    match m
    case Nil => 0
    case Bool(_) => 1
    case Int(_) => 2
    case Float(_) => 3
    case String(_) => 4
    case Objref(_) => 5
    case Special(_) => 6
  }

  /** The type bits of a word are the number that TYPE answers. */
  lemma TypeBits(m: Value<bv64, bv32>)
    requires Accepted(m)
    ensures TypeOf(Encode(m)) == TypeNumber(m) as bv64
  {
    RoundTrip(m);
    match m
    case Nil => assert TypeNumber(m) as bv64 == 0;
    case Bool(_) => assert TypeNumber(m) as bv64 == 1;
    case Int(_) => assert TypeNumber(m) as bv64 == 2;
    case Float(_) => assert TypeNumber(m) as bv64 == 3;
    case String(_) => assert TypeNumber(m) as bv64 == 4;
    case Objref(_) => assert TypeNumber(m) as bv64 == 5;
    case Special(_) => assert TypeNumber(m) as bv64 == 6;
  }

  /** What the constructors accept: their assertions on ids and addresses. */
  predicate Accepted(m: Value<bv64, bv32>) {
    match m
    case Objref(id) => id < 0x100_0000_0000
    case String(a) => Aligned(a)
    case Special(a) => Aligned(a)
    case _ => true
  }

  function Encode(m: Value<bv64, bv32>): Word
    requires Accepted(m)
  {
    match m
    case Nil => MakeNil()
    case Bool(b) => MakeBool(b)
    case Int(i) => MakeInt(i)
    case Float(bits) => MakeFloat(bits)
    case String(a) => MakePointer(a, TYPE_STRING)
    case Objref(id) => MakeObjref(id)
    case Special(a) => MakePointer(a, TYPE_SPECIAL)
  }

  /** Read a word through its type bits and the getter of that type. */
  function Decode(v: Word): Value<bv64, bv32> {
    var tag := TypeOf(v);
    if tag == TYPE_BOOL then Bool(GetBool(v))
    else if tag == TYPE_INT then Int(GetInt(v))
    else if tag == TYPE_FLOAT then Float(GetFloat(v))
    else if tag == TYPE_STRING then String(GetPointer(v))
    else if tag == TYPE_OBJREF then Objref(GetObjref(v))
    else if tag == TYPE_SPECIAL then Special(GetPointer(v))
    else Nil
  }

  lemma BoolRoundTrip(b: bool)
    ensures TypeOf(MakeBool(b)) == TYPE_BOOL && GetBool(MakeBool(b)) == b
  {
    if b {
      assert MakeBool(b) == 17;
    } else {
      assert MakeBool(b) == 1;
    }
  }

  /** The bit facts below the getters: a shifted payload comes back, next to its tag. */
  lemma ShiftBack(x: bv64, tag: bv64)
    requires x < 0x1000_0000_0000_0000 && tag < 8
    ensures ((x << 4) | tag) >> 4 == x && ((x << 4) | tag) & 7 == tag
  {
  }

  lemma ShiftBackLow(x: bv64, tag: bv64)
    requires tag < 8
    ensures (((x << 4) | tag) >> 4) & 0xFFFF_FFFF == x & 0xFFFF_FFFF && ((x << 4) | tag) & 7 == tag
  {
  }

  lemma NarrowAgain(i: bv32)
    ensures (i as bv64) & 0xFFFF_FFFF == i as bv64 && (i as bv64) as bv32 == i
  {
  }

  lemma HighBitsDropped(x: bv64, high: bv64)
    requires high & 0xFFFF_FFFF == 0
    ensures (x | high) & 0xFFFF_FFFF == x & 0xFFFF_FFFF
  {
  }

  lemma SignBitsHigh(i: bv32)
    ensures SignBits(i) & 0xFFFF_FFFF == 0
  {
    assert (0xFFFF_FFFF_0000_0000 as bv64) & 0xFFFF_FFFF == 0;
  }

  lemma SignExtendLow(i: bv32)
    ensures SignExtend(i) & 0xFFFF_FFFF == i as bv64
  {
    hide SignBits;
    SignBitsHigh(i);
    HighBitsDropped(i as bv64, SignBits(i));
    NarrowAgain(i);
  }

  lemma IntRoundTrip(i: bv32)
    ensures TypeOf(MakeInt(i)) == TYPE_INT && GetInt(MakeInt(i)) == i
  {
    hide SignExtend;
    ShiftBackLow(SignExtend(i), TYPE_INT);
    SignExtendLow(i);
    NarrowAgain(i);
  }

  lemma FloatRoundTrip(bits: bv32)
    ensures TypeOf(MakeFloat(bits)) == TYPE_FLOAT && GetFloat(MakeFloat(bits)) == bits
  {
    ShiftBackLow(bits as bv64, TYPE_FLOAT);
    NarrowAgain(bits);
  }

  lemma ObjrefRoundTrip(id: bv64)
    requires id < 0x100_0000_0000
    ensures TypeOf(MakeObjref(id)) == TYPE_OBJREF && GetObjref(MakeObjref(id)) == id
  {
    ShiftBack(id, TYPE_OBJREF);
  }

  lemma PointerRoundTrip(address: bv64, tag: bv64)
    requires Aligned(address) && (tag == TYPE_STRING || tag == TYPE_SPECIAL)
    ensures TypeOf(MakePointer(address, tag)) == tag && GetPointer(MakePointer(address, tag)) == address
  {
  }

  /** Reading back what a constructor made gives its type and payload, on its whole domain. */
  lemma RoundTrip(m: Value<bv64, bv32>)
    requires Accepted(m)
    ensures TypeOf(Encode(m)) == Tag(m) && Decode(Encode(m)) == m
  {
    match m
    case Nil =>
    case Bool(b) => BoolRoundTrip(b);
    case Int(i) => IntRoundTrip(i);
    case Float(bits) => FloatRoundTrip(bits);
    case String(a) => PointerRoundTrip(a, TYPE_STRING);
    case Objref(id) => ObjrefRoundTrip(id);
    case Special(a) => PointerRoundTrip(a, TYPE_SPECIAL);
  }

  lemma ShiftedWord(x: bv64, tag: bv64)
    requires x < 0x1000_0000_0000_0000 && tag < 8
    ensures ((x << 4) | tag) >> 4 == x && ((x << 4) | tag) & 15 == tag
  {
  }

  lemma NibbleOf(x: bv64, tag: bv64)
    requires tag < 8
    ensures ((x << 4) | tag) & 15 == tag
  {
  }

  lemma TaggedAddress(a: bv64)
    requires Aligned(a)
    ensures a | 4 == a + 4 && a | 6 == a + 6
  {
  }

  lemma Narrow(bits: bv32)
    ensures bits as bv64 < 0x1_0000_0000
  {
  }

  // ----- the words as memory holds them: the type in the low bits, by its number; addresses
  // as they are, and every other payload above the fourth bit -----

  lemma IntWord(i: bv32)
    ensures MakeInt(i) & 15 == 2 && Truncate(MakeInt(i) >> 4) == i
  {
    hide SignExtend, Truncate;
    IntRoundTrip(i);
    NibbleOf(SignExtend(i), TYPE_INT);
  }

  lemma FloatWord(bits: bv32)
    ensures MakeFloat(bits) & 15 == 3 && MakeFloat(bits) >> 4 == bits as bv64
  {
    Narrow(bits);
    ShiftedWord(bits as bv64, TYPE_FLOAT);
  }

  lemma PointerWord(a: bv64)
    requires Aligned(a)
    ensures MakePointer(a, TYPE_STRING) == a + 4 && MakePointer(a, TYPE_SPECIAL) == a + 6
  {
    TaggedAddress(a);
  }

  lemma ObjrefWord(id: bv64)
    requires id < 0x100_0000_0000
    ensures MakeObjref(id) & 15 == 5 && MakeObjref(id) >> 4 == id
  {
    ShiftedWord(id, TYPE_OBJREF);
  }

  lemma BoolWord(b: bool)
    ensures MakeBool(b) == if b then 0x11 else 0x01
  {
    if b {
      assert MakeBool(b) == 0x11;
    }
  }

  /** Words are equal exactly when type and payload are. */
  lemma SameWordSameValue(m: Value<bv64, bv32>, n: Value<bv64, bv32>)
    requires Accepted(m) && Accepted(n)
    ensures Encode(m) == Encode(n) <==> m == n
  {
    RoundTrip(m);
    RoundTrip(n);
  }

  lemma MaskedBits(address: bv64, tag: bv64)
    requires tag & 7 == tag
    ensures (address | tag) & 0xFFFF_FFFF_FFFF_FFF8 == address & 0xFFFF_FFFF_FFFF_FFF8
    ensures (address | tag) & 7 == (address & 7) | tag
  {
  }

  lemma AlignedMask(address: bv64)
    ensures address & 0xFFFF_FFFF_FFFF_FFF8 == address <==> address & 7 == 0
  {
  }

  /** A tagged address gives back both address and tag exactly when it is aligned: this is
      what the assertion of the pointer constructor is for. */
  lemma UnalignedIsLost(address: bv64, tag: bv64)
    requires tag == 4 || tag == 6
    ensures ((address | tag) & 0xFFFF_FFFF_FFFF_FFF8 == address && (address | tag) & 7 == tag) <==> address & 7 == 0
  {
    MaskedBits(address, tag);
    AlignedMask(address);
  }

  /** An id is read back exactly when its four top bits are clear, so the bound that
      MakeObjref asserts is sufficient but stricter than the word needs. */
  lemma ObjrefNeedsRoom(id: bv64)
    ensures ((id << 4) | TYPE_OBJREF) >> 4 == id <==> id < 0x1000_0000_0000_0000
  {
  }
}
