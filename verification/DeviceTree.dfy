/** The walker over a flattened device tree that finds the memory of the machine. */
module DeviceTree {
  import opened Options
  import opened Bits

  type Byte = b: int | 0 <= b < 256

  const FDT_BEGIN_NODE: nat := 1
  const FDT_END_NODE: nat := 2
  const FDT_PROP: nat := 3
  const FDT_NOP: nat := 4

  // ----- byte order -----

  /** The number that bytes stand for, most significant first: the order of the device tree. */
  function Be(s: seq<Byte>): nat {
    if s == [] then 0 else 256 * Be(s[..|s| - 1]) + s[|s| - 1]
  }

  /** What a little-endian processor loads. */
  function Le(s: seq<Byte>): nat {
    if s == [] then 0 else s[0] + 256 * Le(s[1..])
  }

  /** The shifted bytes do not overlap, so that joining them is adding. */
  function Fdt32ToCpu(x: nat): nat {
    x % 0x100 * 0x100_0000 + x / 0x100 % 0x100 * 0x1_0000 + x / 0x1_0000 % 0x100 * 0x100 + x / 0x100_0000 % 0x100
  }

  function Fdt64ToCpu(x: nat): nat {
    Fdt32ToCpu(x % 0x1_0000_0000) * 0x1_0000_0000 + Fdt32ToCpu(x / 0x1_0000_0000)
  }

  lemma {:induction false} LeFour(s: seq<Byte>)
    requires |s| == 4
    ensures Le(s) == s[0] as int + 0x100 * s[1] as int + 0x1_0000 * s[2] as int + 0x100_0000 * s[3] as int
    ensures Le(s) < 0x1_0000_0000
  {
    var a: nat, b: nat, c: nat, d: nat := s[0], s[1], s[2], s[3];
    var s1, s2, s3 := s[1..], s[2..], s[3..];
    assert s3[1..] == [] && Le(s3) == d;
    assert s2[1..] == s3 && Le(s2) == c + 256 * d;
    assert s1[1..] == s2 && Le(s1) == b + 256 * (c + 256 * d);
    assert Le(s) == a + 256 * (b + 256 * (c + 256 * d));
  }

  lemma {:induction false} BeFour(s: seq<Byte>)
    requires |s| == 4
    ensures Be(s) == 0x100_0000 * s[0] as int + 0x1_0000 * s[1] as int + 0x100 * s[2] as int + s[3] as int
    ensures Be(s) < 0x1_0000_0000
  {
    var a: nat, b: nat, c: nat, d: nat := s[0], s[1], s[2], s[3];
    var s1, s2, s3 := s[..1], s[..2], s[..3];
    assert s1[..0] == [] && s1[0] == a && Be(s1) == a;
    assert s2[..1] == s1 && s2[1] == b && Be(s2) == 256 * a + b;
    assert s3[..2] == s2 && s3[2] == c && Be(s3) == 256 * (256 * a + b) + c;
    assert Be(s) == 256 * (256 * (256 * a + b) + c) + d;
  }

  /** Loading four bytes and swapping them gives the number they stand for. */
  lemma {:induction false} Swap32(s: seq<Byte>)
    requires |s| == 4
    ensures Fdt32ToCpu(Le(s)) == Be(s)
  {
    LeFour(s);
    BeFour(s);
    SwapBytes(s[0], s[1], s[2], s[3]);
  }

  lemma {:induction false} LowByte(r: nat, q: nat)
    requires r < 0x100
    ensures (r + 0x100 * q) % 0x100 == r && (r + 0x100 * q) / 0x100 == q
  {
  }

  lemma {:induction false} DivTwice(x: nat)
    ensures x / 0x1_0000 == x / 0x100 / 0x100 && x / 0x100_0000 == x / 0x1_0000 / 0x100
  {
  }

  lemma {:induction false} SwapBytes(a: nat, b: nat, c: nat, d: nat)
    requires a < 0x100 && b < 0x100 && c < 0x100 && d < 0x100
    ensures Fdt32ToCpu(a + 0x100 * b + 0x1_0000 * c + 0x100_0000 * d)
            == 0x100_0000 * a + 0x1_0000 * b + 0x100 * c + d
  {
    var x := a + 0x100 * b + 0x1_0000 * c + 0x100_0000 * d;
    LowByte(a, b + 0x100 * (c + 0x100 * d));
    LowByte(b, c + 0x100 * d);
    LowByte(c, d);
    DivTwice(x);
  }

  lemma {:induction false} LeSplit(s: seq<Byte>, t: seq<Byte>)
    requires |s| == 4
    ensures Le(s + t) == Le(s) + 0x1_0000_0000 * Le(t)
  {
    var all := s + t;
    assert all[1..] == s[1..] + t && (s[1..] + t)[1..] == s[2..] + t && (s[2..] + t)[1..] == s[3..] + t;
    assert (s[3..] + t)[1..] == t;
    LeFour(s);
    calc {
      Le(all);
      s[0] + 256 * Le(s[1..] + t);
      s[0] + 256 * (s[1] + 256 * Le(s[2..] + t));
      s[0] + 256 * (s[1] + 256 * (s[2] + 256 * Le(s[3..] + t)));
      s[0] + 256 * (s[1] + 256 * (s[2] + 256 * (s[3] + 256 * Le(t))));
    }
  }

  lemma {:induction false} BeSplit(s: seq<Byte>, t: seq<Byte>)
    requires |t| == 4
    ensures Be(s + t) == 0x1_0000_0000 * Be(s) + Be(t)
  {
    var all := s + t;
    assert all[..|all| - 1] == s + t[..3] && (s + t[..3])[..|s| + 2] == s + t[..2];
    assert (s + t[..2])[..|s| + 1] == s + t[..1] && (s + t[..1])[..|s|] == s;
    BeFour(t);
    calc {
      Be(all);
      256 * Be(s + t[..3]) + t[3];
      256 * (256 * Be(s + t[..2]) + t[2]) + t[3];
      256 * (256 * (256 * Be(s + t[..1]) + t[1]) + t[2]) + t[3];
      256 * (256 * (256 * (256 * Be(s) + t[0]) + t[1]) + t[2]) + t[3];
    }
  }

  lemma {:induction false} HalfWords(lo: nat, hi: nat)
    requires lo < 0x1_0000_0000
    ensures (lo + 0x1_0000_0000 * hi) % 0x1_0000_0000 == lo && (lo + 0x1_0000_0000 * hi) / 0x1_0000_0000 == hi
  {
  }

  lemma {:induction false} Swap64(s: seq<Byte>)
    requires |s| == 8
    ensures Fdt64ToCpu(Le(s)) == Be(s)
  {
    var lo, hi := s[..4], s[4..];
    assert s == lo + hi;
    LeSplit(lo, hi);
    BeSplit(lo, hi);
    Swap32(lo);
    Swap32(hi);
    LeFour(lo);
    HalfWords(Le(lo), Le(hi));
  }

  // ----- the structure block -----

  /** The tokens of the structure block.  A property has its name in the strings block, off bytes in. */
  datatype Token =
    | BeginNode(name: seq<Byte>)
    | EndNode
    | Prop(off: nat, name: seq<Byte>, value: seq<Byte>)
    | Nop

  /** The lowest k bytes of a number, most significant first. */
  function Bytes(n: nat, k: nat): (s: seq<Byte>)
    ensures |s| == k
  {
    if k == 0 then [] else Bytes(n / 0x100, k - 1) + [n % 0x100]
  }

  /** Four bytes for a number. */
  function Word(n: nat): (s: seq<Byte>)
    requires n < 0x1_0000_0000
    ensures |s| == 4
  {
    Bytes(n, 4)
  }

  lemma {:induction false} BytesRead(n: nat, k: nat, limit: nat)
    requires n < limit && limit == Pow2(8 * k)
    ensures Be(Bytes(n, k)) == n
  {
    if k > 0 {
      var s := Bytes(n, k);
      Pow2Add(8 * (k - 1), 8);
      assert Pow2(8) == 0x100;
      QuotientBelow(n, Pow2(8 * (k - 1)));
      BytesRead(n / 0x100, k - 1, Pow2(8 * (k - 1)));
      assert s[..k - 1] == Bytes(n / 0x100, k - 1) && s[k - 1] == n % 0x100;
    }
  }

  lemma {:induction false} QuotientBelow(n: nat, q: nat)
    requires n < q * 0x100
    ensures n / 0x100 < q
  {
  }

  lemma {:induction false} WordReads(n: nat)
    requires n < 0x1_0000_0000
    ensures Be(Word(n)) == n
  {
    Pow2Of32();
    BytesRead(n, 4, 0x1_0000_0000);
  }

  /** The words of four bytes that n bytes take. */
  function Words(n: nat): (w: nat)
    ensures n <= 4 * w < n + 4
  {
    if n == 0 then 0 else if n <= 4 then 1 else 1 + Words(n - 4)
  }

  function Zeros(k: nat): (s: seq<Byte>)
    ensures |s| == k
  {
    if k == 0 then [] else Zeros(k - 1) + [0]
  }

  /** The zeros that bring n bytes up to a whole number of words. */
  function Padding(n: nat): seq<Byte> {
    Zeros(4 * Words(n) - n)
  }

  predicate Encodable(t: Token) {
    match t
    case BeginNode(name) => 0 !in name
    case Prop(off, name, value) => off < 0x1_0000_0000 && |value| < 0x1_0000_0000 && 0 !in name
    case _ => true
  }

  function EncodeToken(t: Token): seq<Byte>
    requires Encodable(t)
  {
    match t
    case BeginNode(name) => Word(FDT_BEGIN_NODE) + name + [0] + Padding(|name| + 1)
    case EndNode => Word(FDT_END_NODE)
    case Prop(off, _, value) => Word(FDT_PROP) + Word(|value|) + Word(off) + value + Padding(|value|)
    case Nop => Word(FDT_NOP)
  }

  /** The tokens, then one that stops the walk: FDT_END, which is 9, in a structure block that is in order. */
  function Encode(ts: seq<Token>, stop: nat): seq<Byte>
    requires (forall i :: 0 <= i < |ts| ==> Encodable(ts[i])) && Stops(stop)
  {
    if ts == [] then Word(stop) else EncodeToken(ts[0]) + Encode(ts[1..], stop)
  }

  predicate Stops(token: nat) {
    token < 0x1_0000_0000 && token !in {FDT_BEGIN_NODE, FDT_END_NODE, FDT_PROP, FDT_NOP}
  }

  /** s begins at place p of the blob. */
  predicate At(blob: seq<Byte>, p: nat, s: seq<Byte>)
    decreases |s|
  {
    if s == [] then p <= |blob| else p < |blob| && blob[p] == s[0] && At(blob, p + 1, s[1..])
  }

  lemma {:induction false} AtMeans(blob: seq<Byte>, p: nat, s: seq<Byte>)
    requires At(blob, p, s)
    ensures p + |s| <= |blob| && forall i :: 0 <= i < |s| ==> blob[p + i] == s[i]
    decreases |s|
  {
    if s != [] {
      AtMeans(blob, p + 1, s[1..]);
      forall i | 0 <= i < |s|
        ensures blob[p + i] == s[i]
      {
        assert i > 0 ==> blob[p + 1 + (i - 1)] == s[1..][i - 1];
      }
    }
  }

  lemma {:induction false} AtSlice(blob: seq<Byte>, p: nat, s: seq<Byte>)
    requires At(blob, p, s)
    ensures p + |s| <= |blob| && blob[p..p + |s|] == s
  {
    AtMeans(blob, p, s);
  }

  lemma {:induction false} AtSplit(blob: seq<Byte>, p: nat, s: seq<Byte>, t: seq<Byte>)
    requires At(blob, p, s + t)
    ensures At(blob, p, s) && At(blob, p + |s|, t)
    decreases |s|
  {
    if s == [] {
      assert s + t == t;
      AtMeans(blob, p, t);
    } else {
      assert (s + t)[1..] == s[1..] + t;
      AtSplit(blob, p + 1, s[1..], t);
    }
  }

  const MEMORY: seq<Byte> := [109, 101, 109, 111, 114, 121]  // "memory"
  const REG: seq<Byte> := [114, 101, 103]                    // "reg"

  predicate IsMemory(name: seq<Byte>) {
    |name| >= 6 && name[..6] == MEMORY
  }

  /** The base and size that the first two numbers of a reg property give. */
  datatype Memory = Memory(base: nat, size: nat)

  /** The first reg property of 16 bytes or more after the start of a memory node with no end of a node in
      between; inside says whether the walk is past the start of such a node. */
  function Find(ts: seq<Token>, inside: bool): Option<Memory> {
    if ts == [] then None
    else
      match ts[0]
      case BeginNode(name) => Find(ts[1..], inside || IsMemory(name))
      case EndNode => Find(ts[1..], false)
      case Prop(_, name, value) =>
        if inside && name == REG && |value| >= 16 then Some(Memory(Be(value[..8]), Be(value[8..16])))
        else Find(ts[1..], inside)
      case Nop => Find(ts[1..], inside)
  }

  /** The blob holds the names of the properties where the tokens say. */
  predicate NamesAt(blob: seq<Byte>, strings: nat, ts: seq<Token>) {
    forall i :: 0 <= i < |ts| && ts[i].Prop? ==> At(blob, strings + ts[i].off, ts[i].name + [0])
  }

  // ----- extract_memory_info -----

  method Load32(blob: seq<Byte>, p: nat) returns (x: nat)
    requires p + 4 <= |blob|
    ensures x == Be(blob[p..p + 4])
  {
    Swap32(blob[p..p + 4]);
    x := Fdt32ToCpu(Le(blob[p..p + 4]));
  }

  method Load64(blob: seq<Byte>, p: nat) returns (x: nat)
    requires p + 8 <= |blob|
    ensures x == Be(blob[p..p + 8])
  {
    Swap64(blob[p..p + 8]);
    x := Fdt64ToCpu(Le(blob[p..p + 8]));
  }

  /** A name and the zero byte behind it. */
  lemma {:induction false} NameMeans(blob: seq<Byte>, p: nat, name: seq<Byte>)
    requires At(blob, p, name + [0])
    ensures p + |name| < |blob| && blob[p + |name|] == 0
    ensures forall i {:trigger name[i]} :: 0 <= i < |name| ==> blob[p + i] == name[i]
  {
    var s := name + [0];
    AtMeans(blob, p, s);
    assert s[|name|] == 0;
    forall i | 0 <= i < |name|
      ensures blob[p + i] == name[i]
    {
      assert s[i] == name[i];
    }
  }

  /** strlen. */
  method StrLen(blob: seq<Byte>, p: nat, ghost name: seq<Byte>) returns (n: nat)
    requires At(blob, p, name + [0]) && 0 !in name
    ensures n == |name|
  {
    NameMeans(blob, p, name);
    n := 0;
    while blob[p + n] != 0
      invariant n <= |name| && (n < |name| ==> blob[p + n] == name[n])
      decreases |name| - n
    {
      n := n + 1;
    }
  }

  /** strcmp or strncmp against a fixed string of m bytes: they agree on the bytes before the end of it. */
  method Matches(blob: seq<Byte>, p: nat, lit: seq<Byte>, ghost name: seq<Byte>) returns (same: bool)
    requires At(blob, p, name + [0]) && 0 !in name && 0 !in lit
    ensures same <==> |name| >= |lit| && name[..|lit|] == lit
  {
    NameMeans(blob, p, name);
    var k := 0;
    while k < |lit| && blob[p + k] != 0 && blob[p + k] == lit[k]
      invariant k <= |lit| && k <= |name| && name[..k] == lit[..k]
    {
      assert k < |name| ==> blob[p + k] == name[k];
      k := k + 1;
    }
    same := k == |lit|;
    assert k < |name| ==> blob[p + k] == name[k];
    assert !same ==> |name| == k || name[k] != lit[k];
  }

  /** Clearing the low two bits of an address. */
  function AlignDown(p: nat): nat {
    p / 4 * 4
  }

  /** Adding three and clearing the low bits goes to the end of the padding. */
  lemma {:induction false} AlignUp(w: nat, n: nat)
    ensures AlignDown(4 * w + n + 3) == 4 * (w + Words(n))
  {
    Quarter(4 * w + n + 3, w + Words(n));
  }

  lemma {:induction false} Quarter(x: nat, q: nat)
    requires 4 * q <= x < 4 * q + 4
    ensures x / 4 * 4 == 4 * q
  {
  }

  /** The first word of the tokens. */
  function Head(ts: seq<Token>, stop: nat): nat {
    if ts == [] then stop
    else
      match ts[0]
      case BeginNode(_) => FDT_BEGIN_NODE
      case EndNode => FDT_END_NODE
      case Prop(_, _, _) => FDT_PROP
      case Nop => FDT_NOP
  }

  lemma {:induction false} WordAt(blob: seq<Byte>, p: nat, n: nat, more: seq<Byte>)
    requires n < 0x1_0000_0000 && At(blob, p, Word(n) + more)
    ensures p + 4 <= |blob| && Be(blob[p..p + 4]) == n && At(blob, p + 4, more)
  {
    AtSplit(blob, p, Word(n), more);
    AtSlice(blob, p, Word(n));
    WordReads(n);
  }

  lemma {:induction false} HeadAt(blob: seq<Byte>, p: nat, ts: seq<Token>, stop: nat)
    requires (forall i :: 0 <= i < |ts| ==> Encodable(ts[i])) && Stops(stop) && At(blob, p, Encode(ts, stop))
    ensures p + 4 <= |blob| && Be(blob[p..p + 4]) == Head(ts, stop)
  {
    if ts == [] {
      assert Word(stop) == Word(stop) + [];
      WordAt(blob, p, stop, []);
    } else {
      AtSplit(blob, p, EncodeToken(ts[0]), Encode(ts[1..], stop));
      var head := EncodeToken(ts[0]);
      assert head == Word(Head(ts, stop)) + head[4..];
      WordAt(blob, p, Head(ts, stop), head[4..]);
    }
  }

  lemma {:induction false} BeginLayout(name: seq<Byte>, more: seq<Byte>)
    requires 0 !in name
    ensures EncodeToken(BeginNode(name)) + more
            == Word(FDT_BEGIN_NODE) + ((name + [0]) + (Padding(|name| + 1) + more))
  {
    RegroupName(Word(FDT_BEGIN_NODE), name, [0], Padding(|name| + 1), more);
  }

  lemma {:induction false} RegroupName(a: seq<Byte>, b: seq<Byte>, c: seq<Byte>, d: seq<Byte>, e: seq<Byte>)
    ensures a + b + c + d + e == a + ((b + c) + (d + e))
  {
  }

  /** Where the parts of a node's start are. */
  lemma {:induction false} BeginParts(blob: seq<Byte>, p: nat, text: seq<Byte>, pad: seq<Byte>, more: seq<Byte>)
    requires At(blob, p, Word(FDT_BEGIN_NODE) + (text + (pad + more)))
    ensures At(blob, p + 4, text) && At(blob, p + 4 + |text| + |pad|, more)
  {
    AtSplit(blob, p, Word(FDT_BEGIN_NODE), text + (pad + more));
    AtSplit(blob, p + 4, text, pad + more);
    AtSplit(blob, p + 4 + |text|, pad, more);
  }

  /** Behind a node's name and its padding is the next token. */
  lemma {:induction false} BeginAt(blob: seq<Byte>, w: nat, t: Token, more: seq<Byte>)
    requires t.BeginNode? && Encodable(t) && At(blob, 4 * w, EncodeToken(t) + more)
    ensures At(blob, 4 * w + 4, t.name + [0]) && At(blob, 4 * (w + 1 + Words(|t.name| + 1)), more)
  {
    BeginLayout(t.name, more);
    BeginParts(blob, 4 * w, t.name + [0], Padding(|t.name| + 1), more);
  }

  lemma {:induction false} PropLayout(t: Token, more: seq<Byte>)
    requires t.Prop? && Encodable(t)
    ensures EncodeToken(t) + more
            == Word(FDT_PROP) + (Word(|t.value|) + (Word(t.off) + (t.value + (Padding(|t.value|) + more))))
  {
    Regroup(Word(FDT_PROP), Word(|t.value|), Word(t.off), t.value, Padding(|t.value|), more);
  }

  lemma {:induction false} Regroup(a: seq<Byte>, b: seq<Byte>, c: seq<Byte>, d: seq<Byte>, e: seq<Byte>, f: seq<Byte>)
    ensures a + b + c + d + e + f == a + (b + (c + (d + (e + f))))
  {
  }

  /** Where the parts of a property are. */
  lemma {:induction false} PropParts(blob: seq<Byte>, p: nat, off: nat, value: seq<Byte>, pad: seq<Byte>,
                                     more: seq<Byte>)
    requires off < 0x1_0000_0000 && |value| < 0x1_0000_0000
    requires At(blob, p, Word(FDT_PROP) + (Word(|value|) + (Word(off) + (value + (pad + more)))))
    ensures p + 12 <= |blob| && Be(blob[p + 4..p + 8]) == |value| && Be(blob[p + 8..p + 12]) == off
    ensures At(blob, p + 12, value) && At(blob, p + 12 + |value| + |pad|, more)
  {
    var tail := value + (pad + more);
    WordAt(blob, p, FDT_PROP, Word(|value|) + (Word(off) + tail));
    WordAt(blob, p + 4, |value|, Word(off) + tail);
    WordAt(blob, p + 8, off, tail);
    AtSplit(blob, p + 12, value, pad + more);
    AtSplit(blob, p + 12 + |value|, pad, more);
  }

  /** Behind a property's value and its padding is the next token. */
  lemma {:induction false} PropAt(blob: seq<Byte>, w: nat, t: Token, more: seq<Byte>)
    requires t.Prop? && Encodable(t) && At(blob, 4 * w, EncodeToken(t) + more)
    ensures var p := 4 * w;
            && p + 12 <= |blob| && Be(blob[p + 4..p + 8]) == |t.value| && Be(blob[p + 8..p + 12]) == t.off
            && At(blob, p + 12, t.value)
    ensures At(blob, 4 * (w + 3 + Words(|t.value|)), more)
  {
    PropLayout(t, more);
    PropParts(blob, 4 * w, t.off, t.value, Padding(|t.value|), more);
  }

  /** The tokens rest are in word w, with the names of their properties where they say. */
  ghost predicate InPlace(blob: seq<Byte>, strings: nat, w: nat, rest: seq<Token>, stop: nat) {
    && (forall i :: 0 <= i < |rest| ==> Encodable(rest[i])) && Stops(stop)
    && At(blob, 4 * w, Encode(rest, stop)) && NamesAt(blob, strings, rest)
  }

  /** The walker is in word w, at these tokens: InPlace, in a form that is only unfolded where InPlace is mentioned. */
  ghost predicate Walking(blob: seq<Byte>, strings: nat, w: nat, rest: seq<Token>, stop: nat) {
    forall v {:trigger InPlace(blob, strings, v, rest, stop)} :: v == w ==> InPlace(blob, strings, v, rest, stop)
  }

  /** The first token, and what follows it. */
  lemma {:induction false} HeadThen(blob: seq<Byte>, strings: nat, w: nat, rest: seq<Token>, stop: nat)
    requires Walking(blob, strings, w, rest, stop) && rest != []
    ensures Encodable(rest[0]) && (forall i :: 0 <= i < |rest[1..]| ==> Encodable(rest[1..][i])) && Stops(stop)
    ensures At(blob, 4 * w, EncodeToken(rest[0]) + Encode(rest[1..], stop))
    ensures rest[0].Prop? ==> At(blob, strings + rest[0].off, rest[0].name + [0])
  {
    assert InPlace(blob, strings, w, rest, stop);
  }

  /** One token further on. */
  lemma {:induction false} WalksOn(blob: seq<Byte>, strings: nat, w: nat, rest: seq<Token>, stop: nat, next: nat)
    requires Walking(blob, strings, w, rest, stop) && rest != []
    requires (forall i :: 0 <= i < |rest[1..]| ==> Encodable(rest[1..][i])) && Stops(stop)
    requires At(blob, 4 * next, Encode(rest[1..], stop))
    ensures Walking(blob, strings, next, rest[1..], stop)
  {
    assert InPlace(blob, strings, w, rest, stop);
  }

  /** What the walker reads of a node's start. */
  lemma {:induction false} BeginFacts(blob: seq<Byte>, strings: nat, w: nat, rest: seq<Token>, stop: nat)
    requires Walking(blob, strings, w, rest, stop) && rest != [] && rest[0].BeginNode?
    ensures At(blob, 4 * w + 4, rest[0].name + [0]) && 0 !in rest[0].name
  {
    HeadThen(blob, strings, w, rest, stop);
    BeginAt(blob, w, rest[0], Encode(rest[1..], stop));
  }

  lemma {:induction false} EncodeOne(ts: seq<Token>, t: Token, rest: seq<Token>, stop: nat)
    requires ts == [t] + rest && (forall i :: 0 <= i < |ts| ==> Encodable(ts[i])) && Stops(stop)
    ensures Encodable(t) && (forall i :: 0 <= i < |rest| ==> Encodable(rest[i]))
    ensures Encode(ts, stop) == EncodeToken(t) + Encode(rest, stop)
  {
    assert ts[0] == t && ts[1..] == rest;
    assert forall i :: 0 <= i < |rest| ==> rest[i] == ts[i + 1];
  }

  /** Where the token behind a node's start is. */
  lemma {:induction false} BeginNext(blob: seq<Byte>, w: nat, t: Token, tail: seq<Token>, stop: nat)
    requires t.BeginNode? && Encodable(t) && (forall i :: 0 <= i < |tail| ==> Encodable(tail[i])) && Stops(stop)
    requires At(blob, 4 * w, EncodeToken(t) + Encode(tail, stop))
    ensures At(blob, 4 * (w + 1 + Words(|t.name| + 1)), Encode(tail, stop))
  {
    BeginAt(blob, w, t, Encode(tail, stop));
  }

  /** The first token, and what follows it, when both are given apart. */
  lemma {:induction false} HeadAndTail(blob: seq<Byte>, strings: nat, w: nat, t: Token, tail: seq<Token>, stop: nat)
    requires Walking(blob, strings, w, [t] + tail, stop)
    ensures Encodable(t) && (forall i :: 0 <= i < |tail| ==> Encodable(tail[i])) && Stops(stop)
    ensures At(blob, 4 * w, EncodeToken(t) + Encode(tail, stop)) && NamesAt(blob, strings, tail)
  {
    assert InPlace(blob, strings, w, [t] + tail, stop);
    EncodeOne([t] + tail, t, tail, stop);
    assert forall i :: 0 <= i < |tail| ==> tail[i] == ([t] + tail)[i + 1];
  }

  lemma {:induction false} BeginPlaced(blob: seq<Byte>, strings: nat, w: nat, t: Token, tail: seq<Token>, stop: nat)
    requires t.BeginNode? && Walking(blob, strings, w, [t] + tail, stop)
    ensures Walking(blob, strings, w + 1 + Words(|t.name| + 1), tail, stop)
  {
    HeadAndTail(blob, strings, w, t, tail, stop);
    BeginNext(blob, w, t, tail, stop);
  }

  lemma {:induction false} BeginWalks(blob: seq<Byte>, strings: nat, w: nat, rest: seq<Token>, stop: nat)
    requires Walking(blob, strings, w, rest, stop) && rest != [] && rest[0].BeginNode?
    ensures Walking(blob, strings, w + 1 + Words(|rest[0].name| + 1), rest[1..], stop)
  {
    assert rest == [rest[0]] + rest[1..];
    BeginPlaced(blob, strings, w, rest[0], rest[1..], stop);
  }

  /** What the walker reads of a property. */
  lemma {:induction false} PropFacts(blob: seq<Byte>, strings: nat, w: nat, rest: seq<Token>, stop: nat)
    requires Walking(blob, strings, w, rest, stop) && rest != [] && rest[0].Prop?
    ensures var p, t := 4 * w, rest[0];
            && p + 12 <= |blob| && Be(blob[p + 4..p + 8]) == |t.value| && Be(blob[p + 8..p + 12]) == t.off
            && At(blob, p + 12, t.value) && At(blob, strings + t.off, t.name + [0]) && 0 !in t.name
  {
    HeadThen(blob, strings, w, rest, stop);
    PropAt(blob, w, rest[0], Encode(rest[1..], stop));
  }

  /** Where the token behind a property is. */
  lemma {:induction false} PropNext(blob: seq<Byte>, strings: nat, w: nat, rest: seq<Token>, stop: nat)
    requires Walking(blob, strings, w, rest, stop) && rest != [] && rest[0].Prop?
    ensures (forall i :: 0 <= i < |rest[1..]| ==> Encodable(rest[1..][i])) && Stops(stop)
    ensures At(blob, 4 * (w + 3 + Words(|rest[0].value|)), Encode(rest[1..], stop))
  {
    HeadThen(blob, strings, w, rest, stop);
    PropAt(blob, w, rest[0], Encode(rest[1..], stop));
  }

  lemma {:induction false} PropWalks(blob: seq<Byte>, strings: nat, w: nat, rest: seq<Token>, stop: nat)
    requires Walking(blob, strings, w, rest, stop) && rest != [] && rest[0].Prop?
    ensures Walking(blob, strings, w + 3 + Words(|rest[0].value|), rest[1..], stop)
  {
    PropNext(blob, strings, w, rest, stop);
    WalksOn(blob, strings, w, rest, stop, w + 3 + Words(|rest[0].value|));
  }

  lemma {:induction false} NextWalks(blob: seq<Byte>, strings: nat, w: nat, rest: seq<Token>, stop: nat)
    requires Walking(blob, strings, w, rest, stop) && rest != [] && (rest[0].EndNode? || rest[0].Nop?)
    ensures Walking(blob, strings, w + 1, rest[1..], stop)
  {
    HeadThen(blob, strings, w, rest, stop);
    AtSplit(blob, 4 * w, EncodeToken(rest[0]), Encode(rest[1..], stop));
    WalksOn(blob, strings, w, rest, stop, w + 1);
  }

  /** Skipping n bytes and their padding. */
  method Skip(p: nat, n: nat, ghost w: nat) returns (next: nat)
    requires p == 4 * w
    ensures next == 4 * (w + Words(n))
  {
    AlignUp(w, n);
    next := AlignDown(p + n + 3);
  }

  /** One token of a node's start. */
  method SkipName(blob: seq<Byte>, strings: nat, p: nat, inside: bool, ghost w: nat, ghost rest: seq<Token>,
                  ghost stop: nat)
    returns (next: nat, within: bool)
    requires p == 4 * w && Walking(blob, strings, w, rest, stop) && rest != [] && rest[0].BeginNode?
    ensures next == 4 * (w + 1 + Words(|rest[0].name| + 1))
    ensures Walking(blob, strings, w + 1 + Words(|rest[0].name| + 1), rest[1..], stop)
    ensures Find(rest, inside) == Find(rest[1..], within)
  {
    ghost var name := rest[0].name;
    BeginFacts(blob, strings, w, rest, stop);
    BeginWalks(blob, strings, w, rest, stop);
    var n := StrLen(blob, p + 4, name);
    var memory := Matches(blob, p + 4, MEMORY, name);
    within := if memory then true else inside;
    next := Skip(p + 4, n + 1, w + 1);
  }

  /** strcmp with "reg". */
  method IsReg(blob: seq<Byte>, p: nat, ghost name: seq<Byte>) returns (same: bool)
    requires At(blob, p, name + [0]) && 0 !in name
    ensures same <==> name == REG
  {
    same := Matches(blob, p, REG, name);
    NameMeans(blob, p, name);
    if same {
      assert |name| > 3 ==> blob[p + 3] == name[3];
      same := blob[p + 3] == 0;
    }
  }

  lemma {:induction false} Slice(s: seq<Byte>, p: nat, n: nat, i: nat, j: nat)
    requires i <= j <= n && p + n <= |s|
    ensures s[p..p + n][i..j] == s[p + i..p + j]
  {
    var a, b := s[p..p + n][i..j], s[p + i..p + j];
    forall k | 0 <= k < |a|
      ensures a[k] == b[k]
    {
    }
  }

  method ReadMemory(blob: seq<Byte>, p: nat, ghost value: seq<Byte>) returns (r: Option<Memory>)
    requires At(blob, p, value) && |value| >= 16
    ensures r == Some(Memory(Be(value[..8]), Be(value[8..16])))
  {
    AtSlice(blob, p, value);
    var base := Load64(blob, p);
    var size := Load64(blob, p + 8);
    Slice(blob, p, |value|, 0, 8);
    Slice(blob, p, |value|, 8, 16);
    r := Some(Memory(base, size));
  }

  /** One property: what it says if it is the one looked for. */
  method ReadProp(blob: seq<Byte>, strings: nat, p: nat, inside: bool, ghost w: nat, ghost rest: seq<Token>,
                  ghost stop: nat)
    returns (next: nat, r: Option<Memory>)
    requires p == 4 * w && Walking(blob, strings, w, rest, stop) && rest != [] && rest[0].Prop?
    ensures next == 4 * (w + 3 + Words(|rest[0].value|))
    ensures Walking(blob, strings, w + 3 + Words(|rest[0].value|), rest[1..], stop)
    ensures if r.Some? then Find(rest, inside) == r else Find(rest, inside) == Find(rest[1..], inside)
  {
    ghost var prop := rest[0];
    PropFacts(blob, strings, w, rest, stop);
    PropWalks(blob, strings, w, rest, stop);
    var len := Load32(blob, p + 4);
    var off := Load32(blob, p + 8);
    r := None;
    if inside && len >= 16 {
      var same := IsReg(blob, strings + off, prop.name);
      if same {
        r := ReadMemory(blob, p + 12, prop.value);
      }
    }
    next := Skip(p + 12, len, w + 3);
  }

  /** A token without more: the walker is one word on. */
  method SkipWord(blob: seq<Byte>, strings: nat, p: nat, ghost w: nat, ghost rest: seq<Token>, ghost stop: nat)
    returns (next: nat)
    requires p == 4 * w && Walking(blob, strings, w, rest, stop) && rest != []
    requires rest[0].EndNode? || rest[0].Nop?
    ensures next == 4 * (w + 1) && Walking(blob, strings, w + 1, rest[1..], stop)
  {
    NextWalks(blob, strings, w, rest, stop);
    next := p + 4;
  }

  /** The word at the walker's place. */
  method ReadToken(blob: seq<Byte>, strings: nat, p: nat, ghost w: nat, ghost rest: seq<Token>, ghost stop: nat)
    returns (token: nat)
    requires p == 4 * w && Walking(blob, strings, w, rest, stop)
    ensures token == Head(rest, stop) && Stops(stop)
  {
    assert InPlace(blob, strings, w, rest, stop);
    HeadAt(blob, p, rest, stop);
    token := Load32(blob, p);
  }

  /** extract_memory_info on a device tree whose structure block, which begins with a word, holds the tokens: it
      ends, and finds what Find says. */
  method ExtractMemoryInfo(blob: seq<Byte>, ghost start: nat, ghost ts: seq<Token>, ghost stop: nat)
    returns (r: Option<Memory>)
    requires |blob| >= 16 && Be(blob[8..12]) == 4 * start && Walking(blob, Be(blob[12..16]), start, ts, stop)
    ensures r == Find(ts, false)
  {
    var p := Load32(blob, 8);
    var strings := Load32(blob, 12);
    var inside := false;
    ghost var w, rest := start, ts;
    r := None;
    while true
      invariant p == 4 * w && Walking(blob, strings, w, rest, stop)
      invariant Find(ts, false) == Find(rest, inside) && r == None
      decreases |rest|
    {
      var token := ReadToken(blob, strings, p, w, rest, stop);
      if token == FDT_BEGIN_NODE {
        p, inside := SkipName(blob, strings, p, inside, w, rest, stop);
        w := w + 1 + Words(|rest[0].name| + 1);
      } else if token == FDT_END_NODE {
        p := SkipWord(blob, strings, p, w, rest, stop);
        inside, w := false, w + 1;
      } else if token == FDT_PROP {
        p, r := ReadProp(blob, strings, p, inside, w, rest, stop);
        if r.Some? {
          return;
        }
        w := w + 3 + Words(|rest[0].value|);
      } else if token == FDT_NOP {
        p := SkipWord(blob, strings, p, w, rest, stop);
        w := w + 1;
      } else {
        return;
      }
      rest := rest[1..];
    }
  }

  // ----- trees -----

  datatype Property = Property(off: nat, name: seq<Byte>, value: seq<Byte>)

  /** A node of a well-formed tree: its properties come before its subnodes. */
  datatype DtNode = DtNode(name: seq<Byte>, props: seq<Property>, kids: seq<DtNode>)

  function PropTokens(props: seq<Property>): seq<Token> {
    if props == [] then [] else [Prop(props[0].off, props[0].name, props[0].value)] + PropTokens(props[1..])
  }

  function NodeTokens(n: DtNode): seq<Token>
    decreases n, |n.kids| + 2
  {
    [BeginNode(n.name)] + PropTokens(n.props) + KidTokens(n, 0) + [EndNode]
  }

  function KidTokens(n: DtNode, i: nat): seq<Token>
    requires i <= |n.kids|
    decreases n, |n.kids| - i + 1
  {
    if i == |n.kids| then [] else NodeTokens(n.kids[i]) + KidTokens(n, i + 1)
  }

  /** The first reg property of 16 bytes or more. */
  function FirstReg(props: seq<Property>): Option<Memory> {
    if props == [] then None
    else if props[0].name == REG && |props[0].value| >= 16 then
      Some(Memory(Be(props[0].value[..8]), Be(props[0].value[8..16])))
    else FirstReg(props[1..])
  }

  /** What the walker finds in a node: the properties of a memory node are searched, and those of its first
      subnode and of that one's first, and so on; behind the end of any node a new memory node is needed. */
  function Search(n: DtNode, inside: bool): Option<Memory>
    decreases n, |n.kids| + 2
  {
    var here := if inside || IsMemory(n.name) then FirstReg(n.props) else None;
    if here.Some? then here else SearchKids(n, 0, inside || IsMemory(n.name))
  }

  function SearchKids(n: DtNode, i: nat, inside: bool): Option<Memory>
    requires i <= |n.kids|
    decreases n, |n.kids| - i + 1
  {
    if i == |n.kids| then None
    else
      var r := Search(n.kids[i], inside);
      if r.Some? then r else SearchKids(n, i + 1, false)
  }

  function Else(a: Option<Memory>, b: Option<Memory>): Option<Memory> {
    if a.Some? then a else b
  }

  lemma {:induction false} FindProps(props: seq<Property>, rest: seq<Token>, inside: bool)
    ensures Find(PropTokens(props) + rest, inside)
            == Else(if inside then FirstReg(props) else None, Find(rest, inside))
  {
    if props == [] {
      assert PropTokens(props) + rest == rest;
    } else {
      var all := PropTokens(props) + rest;
      assert all[1..] == PropTokens(props[1..]) + rest;
      FindProps(props[1..], rest, inside);
    }
  }

  /** Walking over the tokens of a node is searching the node. */
  lemma {:induction false} FindNode(n: DtNode, rest: seq<Token>, inside: bool)
    ensures Find(NodeTokens(n) + rest, inside) == Else(Search(n, inside), Find(rest, false))
    decreases n, |n.kids| + 2
  {
    var within := inside || IsMemory(n.name);
    var tail := [EndNode] + rest;
    var kids := KidTokens(n, 0) + tail;
    var all := NodeTokens(n) + rest;
    assert all[1..] == PropTokens(n.props) + kids;
    FindProps(n.props, kids, within);
    FindKids(n, 0, tail, within);
    assert tail[1..] == rest;
  }

  /** tail starts with the end of the node, so it makes no difference where the walk comes from. */
  lemma {:induction false} FindKids(n: DtNode, i: nat, tail: seq<Token>, inside: bool)
    requires i <= |n.kids| && tail != [] && tail[0] == EndNode
    ensures Find(KidTokens(n, i) + tail, inside) == Else(SearchKids(n, i, inside), Find(tail[1..], false))
    decreases n, |n.kids| - i + 1
  {
    if i == |n.kids| {
      assert KidTokens(n, i) + tail == tail;
    } else {
      var more := KidTokens(n, i + 1) + tail;
      assert KidTokens(n, i) + tail == NodeTokens(n.kids[i]) + more;
      FindNode(n.kids[i], more, inside);
      FindKids(n, i + 1, tail, false);
    }
  }

  /** In a whole tree the walker finds what searching its root finds. */
  lemma {:induction false} FindTree(root: DtNode)
    ensures Find(NodeTokens(root), false) == Search(root, false)
  {
    FindNode(root, [], false);
    assert NodeTokens(root) + [] == NodeTokens(root);
  }

  // ----- a small blob, byte by byte -----

  lemma {:induction false} SmallWord(n: nat)
    requires n < 0x100
    ensures Word(n) == [0, 0, 0, n]
  {
    assert Bytes(0, 0) == [] && Bytes(0, 1) == [0] && Bytes(0, 2) == [0, 0] && Bytes(0, 3) == [0, 0, 0];
  }

  /** The tokens of a tree with nothing but a node "memory" and its reg property, whose name is off bytes into the
      strings block. */
  function MemoryTokens(off: nat, base: nat, size: nat): seq<Token> {
    [BeginNode([]), Nop, BeginNode([109, 101, 109, 111, 114, 121]),
     Prop(off, [114, 101, 103], Bytes(base, 8) + Bytes(size, 8)), EndNode, EndNode]
  }

  /** The same as they stand in a device tree. */
  function MemoryBytes(off: nat, base: nat, size: nat): seq<Byte>
    requires off < 0x100
  {
    [0, 0, 0, 1, 0, 0, 0, 0] + [0, 0, 0, 4] + [0, 0, 0, 1, 109, 101, 109, 111, 114, 121, 0, 0]
    + ([0, 0, 0, 3, 0, 0, 0, 16, 0, 0, 0, off] + (Bytes(base, 8) + Bytes(size, 8)))
    + [0, 0, 0, 2] + [0, 0, 0, 2] + [0, 0, 0, 9]
  }

  lemma {:induction false} Six(a: seq<Byte>, b: seq<Byte>, c: seq<Byte>, d: seq<Byte>, e: seq<Byte>, f: seq<Byte>,
                               g: seq<Byte>)
    ensures a + (b + (c + (d + (e + (f + g))))) == a + b + c + d + e + f + g
  {
  }

  lemma {:induction false} EmptyName()
    ensures EncodeToken(BeginNode([])) == [0, 0, 0, 1, 0, 0, 0, 0]
  {
    SmallWord(1);
    assert Words(1) == 1 && Zeros(3) == Zeros(2) + [0] && Zeros(2) == Zeros(1) + [0] && Zeros(1) == Zeros(0) + [0];
  }

  lemma {:induction false} MemoryName()
    ensures EncodeToken(BeginNode([109, 101, 109, 111, 114, 121]))
         == [0, 0, 0, 1, 109, 101, 109, 111, 114, 121, 0, 0]
  {
    SmallWord(1);
    assert Words(7) == 2 && Zeros(1) == Zeros(0) + [0];
  }

  lemma {:induction false} RegProperty(off: nat, value: seq<Byte>)
    requires off < 0x100 && |value| == 16
    ensures EncodeToken(Prop(off, [114, 101, 103], value)) == [0, 0, 0, 3, 0, 0, 0, 16, 0, 0, 0, off] + value
  {
    SmallWord(3);
    SmallWord(16);
    SmallWord(off);
    NoPadding();
    Joined([0, 0, 0, 3], [0, 0, 0, 16], [0, 0, 0, off], value);
    assert [0, 0, 0, 3] + [0, 0, 0, 16] + [0, 0, 0, off] == [0, 0, 0, 3, 0, 0, 0, 16, 0, 0, 0, off];
  }

  lemma {:induction false} NoPadding()
    ensures Padding(16) == []
  {
    assert Words(16) == 4;
  }

  lemma {:induction false} Joined(a: seq<Byte>, b: seq<Byte>, c: seq<Byte>, d: seq<Byte>)
    ensures a + b + c + d + [] == (a + b + c) + d
  {
  }

  lemma {:induction false} MemoryParts(off: nat, base: nat, size: nat)
    requires off < 0x100
    ensures EncodeToken(BeginNode([])) == [0, 0, 0, 1, 0, 0, 0, 0]
    ensures EncodeToken(BeginNode([109, 101, 109, 111, 114, 121]))
         == [0, 0, 0, 1, 109, 101, 109, 111, 114, 121, 0, 0]
    ensures EncodeToken(Prop(off, [114, 101, 103], Bytes(base, 8) + Bytes(size, 8)))
         == [0, 0, 0, 3, 0, 0, 0, 16, 0, 0, 0, off] + (Bytes(base, 8) + Bytes(size, 8))
    ensures EncodeToken(Nop) == [0, 0, 0, 4] && EncodeToken(EndNode) == [0, 0, 0, 2] && Word(9) == [0, 0, 0, 9]
  {
    SmallWord(2);
    SmallWord(4);
    SmallWord(9);
    EmptyName();
    MemoryName();
    RegProperty(off, Bytes(base, 8) + Bytes(size, 8));
  }

  /** The bytes of tokens in front of FDT_END, in a form that is only unfolded where Encode is mentioned. */
  ghost predicate EncodesTo(ts: seq<Token>, bytes: seq<Byte>) {
    && (forall i :: 0 <= i < |ts| ==> Encodable(ts[i]))
    && forall stop {:trigger Encode(ts, stop)} :: stop == 9 && Stops(stop) ==> Encode(ts, stop) == bytes
  }

  lemma {:induction false} Prepend(t: Token, rest: seq<Token>, b: seq<Byte>, bytes: seq<Byte>)
    requires EncodesTo(rest, bytes) && Encodable(t) && EncodeToken(t) == b
    ensures EncodesTo([t] + rest, b + bytes)
  {
    var ts := [t] + rest;
    assert Stops(9);
    EncodeOne(ts, t, rest, 9);
  }

  lemma {:induction false} NoTokens()
    ensures EncodesTo([], [0, 0, 0, 9])
  {
    SmallWord(9);
  }

  /** These are the bytes of the tokens, which end with FDT_END. */
  lemma {:induction false} MemoryEncoded(off: nat, base: nat, size: nat)
    requires off < 0x100
    ensures EncodesTo(MemoryTokens(off, base, size), MemoryBytes(off, base, size))
  {
    var value := Bytes(base, 8) + Bytes(size, 8);
    var name: seq<Byte> := [109, 101, 109, 111, 114, 121];
    var t0, t1, t2, t3 := BeginNode([]), Nop, BeginNode(name), Prop(off, [114, 101, 103], value);
    MemoryParts(off, base, size);
    var b0, b1: seq<Byte>, b2 := EncodeToken(t0), [0, 0, 0, 4], EncodeToken(t2);
    var b3, b4: seq<Byte>, stop: seq<Byte> := EncodeToken(t3), [0, 0, 0, 2], [0, 0, 0, 9];
    NoTokens();
    Prepend(EndNode, [], b4, stop);
    Prepend(EndNode, [EndNode] + [], b4, b4 + stop);
    Prepend(t3, [EndNode] + ([EndNode] + []), b3, b4 + (b4 + stop));
    Prepend(t2, [t3] + ([EndNode] + ([EndNode] + [])), b2, b3 + (b4 + (b4 + stop)));
    Prepend(t1, [t2] + ([t3] + ([EndNode] + ([EndNode] + []))), b1, b2 + (b3 + (b4 + (b4 + stop))));
    Prepend(t0, [t1] + ([t2] + ([t3] + ([EndNode] + ([EndNode] + [])))), b0,
            b1 + (b2 + (b3 + (b4 + (b4 + stop)))));
    Six(b0, b1, b2, b3, b4, b4, stop);
    assert [t0] + ([t1] + ([t2] + ([t3] + ([EndNode] + ([EndNode] + []))))) == [t0, t1, t2, t3, EndNode, EndNode];
  }

  lemma {:induction false} Pow2Of64()
    ensures Pow2(64) == 0x1_0000_0000_0000_0000
  {
    Pow2Of32();
    Pow2Add(32, 32);
  }

  lemma {:induction false} Pow2Of32()
    ensures Pow2(32) == 0x1_0000_0000
  {
    Pow2Add(8, 8);
    Pow2Add(16, 16);
    assert Pow2(8) == 0x100;
  }

  lemma {:induction false} EightRead(n: nat)
    requires n < 0x1_0000_0000_0000_0000
    ensures Be(Bytes(n, 8)) == n
  {
    Pow2Of64();
    BytesRead(n, 8, 0x1_0000_0000_0000_0000);
  }

  /** The memory of the machine is found in them. */
  lemma {:induction false} MemoryFound(off: nat, base: nat, size: nat)
    requires base < 0x1_0000_0000_0000_0000 && size < 0x1_0000_0000_0000_0000
    ensures Find(MemoryTokens(off, base, size), false) == Some(Memory(base, size))
  {
    var ts, value := MemoryTokens(off, base, size), Bytes(base, 8) + Bytes(size, 8);
    EightRead(base);
    EightRead(size);
    assert value[..8] == Bytes(base, 8) && value[8..16] == Bytes(size, 8);
    assert Find(ts[3..], true) == Some(Memory(base, size));
    assert ts[1..][1..] == ts[2..] && ts[2..][1..] == ts[3..];
    assert [109, 101, 109, 111, 114, 121][..6] == MEMORY;
    assert Find(ts[2..], false) == Some(Memory(base, size));
    assert Find(ts[1..], false) == Some(Memory(base, size));
  }

  lemma {:induction false} SliceAt(blob: seq<Byte>, p: nat, s: seq<Byte>)
    requires p + |s| <= |blob| && blob[p..p + |s|] == s
    ensures At(blob, p, s)
    decreases |s|
  {
    if s != [] {
      assert blob[p] == blob[p..p + |s|][0];
      assert blob[p + 1..p + |s|] == blob[p..p + |s|][1..];
      SliceAt(blob, p + 1, s[1..]);
    }
  }

  /** A device tree with the name "reg" in its strings block and then these tokens. */
  function MemoryBlob(base: nat, size: nat): seq<Byte> {
    [208, 13, 254, 237, 0, 0, 0, 112, 0, 0, 0, 20, 0, 0, 0, 16] + [114, 101, 103, 0] + MemoryBytes(0, base, size)
  }

  lemma {:induction false} MemoryHeader(base: nat, size: nat)
    ensures var blob := MemoryBlob(base, size);
            && |blob| >= 20 && Be(blob[8..12]) == 20 && Be(blob[12..16]) == 16
            && blob[16..20] == [114, 101, 103, 0] && blob[20..] == MemoryBytes(0, base, size)
  {
    var blob := MemoryBlob(base, size);
    SmallWord(20);
    SmallWord(16);
    WordReads(20);
    WordReads(16);
    assert blob[8..12] == [0, 0, 0, 20] && blob[12..16] == [0, 0, 0, 16];
  }

  lemma {:induction false} MemoryWalks(base: nat, size: nat)
    ensures Walking(MemoryBlob(base, size), 16, 5, MemoryTokens(0, base, size), 9)
  {
    var blob, ts := MemoryBlob(base, size), MemoryTokens(0, base, size);
    MemoryHeader(base, size);
    MemoryEncoded(0, base, size);
    assert blob[20..20 + |MemoryBytes(0, base, size)|] == MemoryBytes(0, base, size);
    SliceAt(blob, 20, MemoryBytes(0, base, size));
    assert blob[16..16 + 4] == [114, 101, 103, 0] && [114, 101, 103] + [0] == [114, 101, 103, 0];
    SliceAt(blob, 16, [114, 101, 103, 0]);
    assert NamesAt(blob, 16, ts);
    assert InPlace(blob, 16, 5, ts, 9);
  }

  /** extract_memory_info on such a device tree. */
  method SmallTree(base: nat, size: nat) returns (r: Option<Memory>)
    requires base < 0x1_0000_0000_0000_0000 && size < 0x1_0000_0000_0000_0000
    ensures r == Some(Memory(base, size))
  {
    MemoryHeader(base, size);
    MemoryWalks(base, size);
    MemoryFound(0, base, size);
    r := ExtractMemoryInfo(MemoryBlob(base, size), 5, MemoryTokens(0, base, size), 9);
  }
}
