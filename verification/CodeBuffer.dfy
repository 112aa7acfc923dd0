/** The byte form of an object's code: its id, its parents and its methods. */
module CodeBuffer {
  import opened SlotList
  import opened Wrappers

  type Byte = b: int | 0 <= b < 256

  type Code = seq<Byte>

  /** What obj_code_to_buffer writes of an object. */
  datatype ObjectCode = ObjectCode(id: nat, parents: seq<nat>, methods: seq<Named<Code>>)

  function Power(w: nat): (p: nat)
    ensures p > 0
  {
    if w == 0 then 1 else 256 * Power(w - 1)
  }

  /** An integer as memory holds it: w bytes, the lowest first. */
  function LittleEndian(x: nat, w: nat): (bs: seq<Byte>)
    ensures |bs| == w
  {
    if w == 0 then [] else [x % 256] + LittleEndian(x / 256, w - 1)
  }

  function FromLittleEndian(bs: seq<Byte>): nat {
    if bs == [] then 0 else bs[0] + 256 * FromLittleEndian(bs[1..])
  }

  function NameBytes(name: string): (bs: seq<Byte>)
    ensures |bs| == |name|
  {
    if name == "" then [] else [name[0] as int % 256] + NameBytes(name[1..])
  }

  function FromNameBytes(bs: seq<Byte>): string {
    if bs == [] then "" else [bs[0] as char] + FromNameBytes(bs[1..])
  }

  function ParentBytes(parents: seq<nat>): seq<Byte> {
    if parents == [] then [] else LittleEndian(parents[0], 8) + ParentBytes(parents[1..])
  }

  /** A length of four bytes and as many bytes. */
  function BlockBytes(block: seq<Byte>): (bs: seq<Byte>)
    ensures |bs| == 4 + |block|
  {
    LittleEndian(|block|, 4) + block
  }

  function MethodBytes(m: Named<Code>): (bs: seq<Byte>)
    ensures |bs| == 4 + |m.name| + 4 + |m.value|
  {
    BlockBytes(NameBytes(m.name)) + BlockBytes(m.value)
  }

  function MethodsBytes(ms: seq<Named<Code>>): seq<Byte> {
    if ms == [] then [] else MethodBytes(ms[0]) + MethodsBytes(ms[1..])
  }

  function Bytes(o: ObjectCode): seq<Byte> {
    LittleEndian(o.id, 8) + LittleEndian(|o.parents|, 4) + ParentBytes(o.parents)
    + LittleEndian(|o.methods|, 4) + MethodsBytes(o.methods)
  }

  /** The size pass, method by method. */
  function MethodsSize(ms: seq<Named<Code>>): nat {
    if ms == [] then 0 else 4 + |ms[0].name| + 4 + |ms[0].value| + MethodsSize(ms[1..])
  }

  function Size(o: ObjectCode): nat {
    8 + 4 + 8 * |o.parents| + 4 + MethodsSize(o.methods)
  }

  /** What the C types of the fields allow: 64-bit ids, 32-bit counts, names of bytes. */
  predicate Representable(o: ObjectCode) {
    && o.id < Power(8) && |o.parents| < Power(4) && |o.methods| < Power(4)
    && (forall i :: 0 <= i < |o.parents| ==> o.parents[i] < Power(8))
    && (forall i :: 0 <= i < |o.methods| ==> MethodFits(o.methods[i]))
  }

  predicate MethodFits(m: Named<Code>) {
    && |m.name| < Power(4) && |m.value| < Power(4)
    && (forall i :: 0 <= i < |m.name| ==> m.name[i] as int < 256)
  }

  lemma {:induction false} ParentsLength(parents: seq<nat>)
    ensures |ParentBytes(parents)| == 8 * |parents|
  {
    hide LittleEndian, FromLittleEndian, Power;
    if parents != [] {
      ParentsLength(parents[1..]);
    }
  }

  lemma {:induction false} MethodsLength(ms: seq<Named<Code>>)
    ensures |MethodsBytes(ms)| == MethodsSize(ms)
  {
    hide LittleEndian, FromLittleEndian, Power;
    if ms != [] {
      MethodsLength(ms[1..]);
    }
  }

  /** The first pass reserves exactly what the second writes. */
  lemma SizeIsExact(o: ObjectCode)
    ensures |Bytes(o)| == Size(o)
  {
    ParentsLength(o.parents);
    MethodsLength(o.methods);
  }

  /** A number without its low k bytes. */
  function Upper(x: nat, k: nat): nat {
    if k == 0 then x else Upper(x / 256, k - 1)
  }

  /** Byte k of an integer in memory. */
  lemma {:induction false} ByteOfInteger(x: nat, w: nat, k: nat)
    requires k < w
    ensures LittleEndian(x, w)[k] == Upper(x, k) % 256
    decreases w
  {
    if k > 0 {
      ByteOfInteger(x / 256, w - 1, k - 1);
    }
  }

  lemma {:induction false} ParentAt(parents: seq<nat>, i: nat)
    requires i < |parents|
    ensures |ParentBytes(parents)| >= 8 * i + 8
    ensures ParentBytes(parents)[8 * i..8 * i + 8] == LittleEndian(parents[i], 8)
    decreases i
  {
    hide LittleEndian;
    ParentsLength(parents);
    if i > 0 {
      ParentAt(parents[1..], i - 1);
      var rest := ParentBytes(parents[1..]);
      assert ParentBytes(parents)[8 * i..8 * i + 8] == rest[8 * (i - 1)..8 * (i - 1) + 8];
    }
  }

  /** One method stands in the bytes at a place. */
  ghost predicate StandsAt(bs: seq<Byte>, at: nat, m: Named<Code>) {
    var code := at + 8 + |m.name|;
    && |bs| >= code + |m.value|
    && bs[at..at + 4] == LittleEndian(|m.name|, 4) && bs[at + 4..at + 4 + |m.name|] == NameBytes(m.name)
    && bs[code - 4..code] == LittleEndian(|m.value|, 4) && bs[code..code + |m.value|] == m.value
  }

  lemma StandsFirst(m: Named<Code>, rest: seq<Byte>)
    ensures StandsAt(MethodBytes(m) + rest, 0, m)
  {
    hide LittleEndian, NameBytes;
    var name, len := BlockBytes(NameBytes(m.name)), LittleEndian(|m.value|, 4);
    assert MethodBytes(m) + rest == LittleEndian(|m.name|, 4) + NameBytes(m.name) + len + m.value + rest;
  }

  lemma StandsBehind(x: seq<Byte>, bs: seq<Byte>, at: nat, m: Named<Code>)
    requires StandsAt(bs, at, m)
    ensures StandsAt(x + bs, |x| + at, m)
  {
    hide LittleEndian, NameBytes;
    Behind(x, bs);
  }

  /** Method i stands behind the methods before it. */
  lemma {:induction false} MethodAt(ms: seq<Named<Code>>, i: nat)
    requires i < |ms|
    ensures StandsAt(MethodsBytes(ms), MethodsSize(ms[..i]), ms[i])
    decreases i
  {
    hide MethodBytes, StandsAt;
    if i == 0 {
      assert ms[..0] == [];
      StandsFirst(ms[0], MethodsBytes(ms[1..]));
    } else {
      MethodAt(ms[1..], i - 1);
      assert ms[..i][1..] == ms[1..][..i - 1];
      StandsBehind(MethodBytes(ms[0]), MethodsBytes(ms[1..]), MethodsSize(ms[1..][..i - 1]), ms[i]);
    }
  }

  lemma Behind(x: seq<Byte>, y: seq<Byte>)
    ensures forall i, j :: 0 <= i <= j <= |y| ==> (x + y)[|x| + i..|x| + j] == y[i..j]
  {
  }

  /** Where everything stands: the id in the first eight bytes, the number of parents in the next
      four, the parents in eight bytes each, the number of methods, and each method as the length
      of its name, its name, the length of its code and its code. */
  lemma Layout(o: ObjectCode, i: nat)
    ensures var bs, p := Bytes(o), 12 + 8 * |o.parents|;
      && |bs| >= p + 4 && bs[..8] == LittleEndian(o.id, 8) && bs[8..12] == LittleEndian(|o.parents|, 4)
      && (i < |o.parents| ==> bs[12 + 8 * i..20 + 8 * i] == LittleEndian(o.parents[i], 8))
      && bs[p..p + 4] == LittleEndian(|o.methods|, 4) && bs[p + 4..] == MethodsBytes(o.methods)
  {
    hide LittleEndian;
    ParentsLength(o.parents);
    if i < |o.parents| {
      ParentAt(o.parents, i);
    }
    var front := LittleEndian(o.id, 8) + LittleEndian(|o.parents|, 4);
    var back := LittleEndian(|o.methods|, 4) + MethodsBytes(o.methods);
    assert Bytes(o) == front + ParentBytes(o.parents) + back;
    Between(front, ParentBytes(o.parents), back);
  }

  lemma Between(x: seq<Byte>, y: seq<Byte>, z: seq<Byte>)
    ensures var s := x + y + z;
      && s[..|x|] == x && s[|x| + |y|..] == z
      && forall i, j :: 0 <= i <= j <= |y| ==> s[|x| + i..|x| + j] == y[i..j]
  {
  }

  lemma {:induction false} IntegerRoundTrip(x: nat, w: nat)
    requires x < Power(w)
    ensures FromLittleEndian(LittleEndian(x, w)) == x
    decreases w
  {
    if w > 0 {
      IntegerRoundTrip(x / 256, w - 1);
      assert LittleEndian(x, w)[1..] == LittleEndian(x / 256, w - 1);
    }
  }

  lemma {:induction false} NameRoundTrip(name: string)
    requires forall i :: 0 <= i < |name| ==> name[i] as int < 256
    ensures FromNameBytes(NameBytes(name)) == name
    decreases |name|
  {
    if name != "" {
      NameRoundTrip(name[1..]);
      assert NameBytes(name)[1..] == NameBytes(name[1..]);
    }
  }

  /** Reading: an integer of w bytes, then what follows it. */
  function TakeInteger(bs: seq<Byte>, w: nat): Option<(nat, seq<Byte>)> {
    if |bs| < w then None else Some((FromLittleEndian(bs[..w]), bs[w..]))
  }

  function TakeBytes(bs: seq<Byte>, n: nat): Option<(seq<Byte>, seq<Byte>)> {
    if |bs| < n then None else Some((bs[..n], bs[n..]))
  }

  function TakeParents(bs: seq<Byte>, n: nat): Option<(seq<nat>, seq<Byte>)>
    decreases n
  {
    if n == 0 then Some(([], bs))
    else
      match TakeInteger(bs, 8)
      case None => None
      case Some((p, rest)) =>
        match TakeParents(rest, n - 1)
        case None => None
        case Some((ps, end)) => Some(([p] + ps, end))
  }

  function TakeBlock(bs: seq<Byte>): Option<(seq<Byte>, seq<Byte>)> {
    match TakeInteger(bs, 4)
    case None => None
    case Some((n, rest)) => TakeBytes(rest, n)
  }

  function TakeMethods(bs: seq<Byte>, n: nat): Option<(seq<Named<Code>>, seq<Byte>)>
    decreases n
  {
    if n == 0 then Some(([], bs))
    else
      match TakeBlock(bs)
      case None => None
      case Some((name, rest)) =>
        match TakeBlock(rest)
        case None => None
        case Some((code, more)) =>
          match TakeMethods(more, n - 1)
          case None => None
          case Some((ms, end)) => Some(([Named(FromNameBytes(name), code)] + ms, end))
  }

  function TakeObject(bs: seq<Byte>): Option<(ObjectCode, seq<Byte>)> {
    match TakeInteger(bs, 8)
    case None => None
    case Some((id, rest)) =>
      match TakeInteger(rest, 4)
      case None => None
      case Some((n, rest)) =>
        match TakeParents(rest, n)
        case None => None
        case Some((parents, rest)) =>
          match TakeInteger(rest, 4)
          case None => None
          case Some((n, rest)) =>
            match TakeMethods(rest, n)
            case None => None
            case Some((methods, rest)) => Some((ObjectCode(id, parents, methods), rest))
  }

  lemma Apart(x: seq<Byte>, y: seq<Byte>, z: seq<Byte>)
    ensures (x + y)[..|x|] == x && (x + y)[|x|..] == y && x + y + z == x + (y + z)
  {
  }

  lemma IntegerRead(x: nat, w: nat, rest: seq<Byte>)
    requires x < Power(w)
    ensures TakeInteger(LittleEndian(x, w) + rest, w) == Some((x, rest))
  {
    hide LittleEndian, FromLittleEndian, Power;
    IntegerRoundTrip(x, w);
    Apart(LittleEndian(x, w), rest, []);
  }

  lemma BlockRead(block: seq<Byte>, rest: seq<Byte>)
    requires |block| < Power(4)
    ensures TakeBlock(BlockBytes(block) + rest) == Some((block, rest))
  {
    hide LittleEndian, FromLittleEndian, Power, TakeInteger;
    Apart(LittleEndian(|block|, 4), block, rest);
    IntegerRead(|block|, 4, block + rest);
    Apart(block, rest, []);
  }

  lemma {:induction false} ParentsRead(parents: seq<nat>, rest: seq<Byte>)
    requires forall i :: 0 <= i < |parents| ==> parents[i] < Power(8)
    ensures TakeParents(ParentBytes(parents) + rest, |parents|) == Some((parents, rest))
    decreases |parents|
  {
    hide LittleEndian, FromLittleEndian, Power;
    if parents == [] {
      assert ParentBytes(parents) + rest == rest;
    } else {
      var more := ParentBytes(parents[1..]) + rest;
      IntegerRead(parents[0], 8, more);
      assert ParentBytes(parents) + rest == LittleEndian(parents[0], 8) + more;
      ParentsRead(parents[1..], rest);
      assert [parents[0]] + parents[1..] == parents;
    }
  }

  lemma MethodRead(m: Named<Code>, rest: seq<Byte>)
    requires MethodFits(m)
    ensures var tail := BlockBytes(m.value) + rest;
      TakeBlock(MethodBytes(m) + rest) == Some((NameBytes(m.name), tail)) && TakeBlock(tail) == Some((m.value, rest))
  {
    hide BlockBytes, Power;
    Apart(BlockBytes(NameBytes(m.name)), BlockBytes(m.value), rest);
    BlockRead(NameBytes(m.name), BlockBytes(m.value) + rest);
    BlockRead(m.value, rest);
  }

  lemma {:induction false} MethodsRead(ms: seq<Named<Code>>, rest: seq<Byte>)
    requires forall i :: 0 <= i < |ms| ==> MethodFits(ms[i])
    ensures TakeMethods(MethodsBytes(ms) + rest, |ms|) == Some((ms, rest))
    decreases |ms|
  {
    hide MethodBytes, TakeBlock, NameBytes, FromNameBytes, Power;
    if ms == [] {
      assert MethodsBytes(ms) + rest == rest;
    } else {
      var more := MethodsBytes(ms[1..]) + rest;
      assert MethodsBytes(ms) + rest == MethodBytes(ms[0]) + more;
      MethodRead(ms[0], more);
      NameRoundTrip(ms[0].name);
      MethodsRead(ms[1..], rest);
      assert [ms[0]] + ms[1..] == ms;
    }
  }

  /** The form can be read back, whatever follows it. */
  lemma ObjectRead(o: ObjectCode, rest: seq<Byte>)
    requires Representable(o)
    ensures TakeObject(Bytes(o) + rest) == Some((o, rest))
  {
    hide LittleEndian, FromLittleEndian, Power;
    var r4 := MethodsBytes(o.methods) + rest;
    var r3 := LittleEndian(|o.methods|, 4) + r4;
    var r2 := ParentBytes(o.parents) + r3;
    var r1 := LittleEndian(|o.parents|, 4) + r2;
    assert Bytes(o) + rest == LittleEndian(o.id, 8) + r1;
    IntegerRead(o.id, 8, r1);
    IntegerRead(|o.parents|, 4, r2);
    ParentsRead(o.parents, r3);
    IntegerRead(|o.methods|, 4, r4);
    MethodsRead(o.methods, rest);
  }

  /** Equal buffers mean equal ids, parents and methods; no buffer is even the beginning of
      another's. */
  lemma UniquelyDecodable(o: ObjectCode, p: ObjectCode)
    requires Representable(o) && Representable(p) && Bytes(o) <= Bytes(p)
    ensures o == p
  {
    var rest := Bytes(p)[|Bytes(o)|..];
    assert Bytes(o) + rest == Bytes(p) + [];
    ObjectRead(o, rest);
    ObjectRead(p, []);
  }
}
