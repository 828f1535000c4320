/**
 * The high-score table and its file.
 *
 * The file is a sequence of records, each a length byte n, n name bytes
 * (one character each), a length byte k and k value bytes, least
 * significant first. The table keeps the scores sorted with the highest
 * first; a new score replaces the lowest one when it is higher, and saving
 * appends to the file only the scores it does not already hold.
 */
module HighScores {
  import opened Wrappers
  import opened Numerics

  /** A player's name and score. */
  datatype Score = Score(name: string, value: int32)

  // ---------------------------------------------------------------------
  // Comparison

  /** Score.Equals: the same name and the same value. */
  predicate Equals(a: Score, other: Score)
  {
    a.name == other.name && a.value == other.value
  }

  /** Equals is the equality of the two fields, so List.Contains finds exactly the equal scores. */
  lemma EqualsIsEquality(a: Score, other: Score)
    ensures Equals(a, other) <==> a == other
  {
  }

  /** Math.Sign. */
  function Sign(x: int): (s: int)
    ensures -1 <= s <= 1
    ensures s < 0 <==> x < 0
    ensures s > 0 <==> x > 0
  {
    if x < 0 then -1 else if x > 0 then 1 else 0
  }

  /** CompareTo as written: the sign of other.Value - Value, subtracted in int arithmetic. */
  function CompareTo(a: Score, other: Score): int
  {
    Sign(Wrap32(other.value - a.value))
  }

  /** The order CompareTo is meant to give: a higher value sorts first. */
  function ByValue(a: Score, other: Score): (c: int)
    ensures c < 0 <==> a.value > other.value
    ensures c > 0 <==> a.value < other.value
    ensures c == 0 <==> a.value == other.value
  {
    Sign(other.value - a.value)
  }

  /** ByValue is antisymmetric and transitive: it is a total preorder on values. */
  lemma ByValueIsAnOrder(a: Score, b: Score, c: Score)
    ensures ByValue(a, b) == -ByValue(b, a)
    ensures ByValue(a, b) <= 0 && ByValue(b, c) <= 0 ==> ByValue(a, c) <= 0
  {
  }

  /** While the difference of the values fits in an int, CompareTo is the intended order. */
  lemma CompareToAgreesWhenClose(a: Score, other: Score)
    requires -TWO_31 <= other.value - a.value < TWO_31
    ensures CompareTo(a, other) == ByValue(a, other)
  {
  }

  /** Scores between -2^30 and 2^30 are always close enough. */
  lemma CompareToAgreesOnModerateScores(a: Score, other: Score)
    requires -0x4000_0000 <= a.value < 0x4000_0000 && -0x4000_0000 <= other.value < 0x4000_0000
    ensures CompareTo(a, other) == ByValue(a, other)
  {
    CompareToAgreesWhenClose(a, other);
  }

  /** The subtraction overflows for -1 against int.MaxValue, and CompareTo puts -1 first. */
  lemma CompareToOverflow()
    ensures CompareTo(Score("", -1), Score("", 0x7FFF_FFFF)) == -1
    ensures ByValue(Score("", -1), Score("", 0x7FFF_FFFF)) == 1
  {
    assert Wrap32(0x7FFF_FFFF - (-1)) == -TWO_31;
  }

  /** The argument of CompareTo(object): a score, or any other object. */
  datatype Comparand = AScore(score: Score) | NotAScore

  /** CompareTo(object): a score compares as above, anything else as equal. */
  function CompareToObject(a: Score, obj: Comparand): (c: int)
    ensures obj.NotAScore? ==> c == 0
    ensures obj.AScore? ==> c == CompareTo(a, obj.score)
  {
    match obj
    case AScore(other) => CompareTo(a, other)
    case NotAScore => 0
  }

  // ---------------------------------------------------------------------
  // Sorting

  /** Highest value first: no score is above the one before it. */
  predicate Descending(xs: seq<Score>)
  {
    forall i :: 0 < i < |xs| ==> xs[i - 1].value >= xs[i].value
  }

  /** In a descending list every score is at least as high as every later one. */
  lemma {:induction false} DescendingOrdered(xs: seq<Score>, i: nat, j: nat)
    requires Descending(xs) && i <= j < |xs|
    ensures xs[i].value >= xs[j].value
    decreases j - i
  {
    if i < j {
      DescendingOrdered(xs, i + 1, j);
    }
  }

  /** A score at least as high as the head of a descending list heads a descending list. */
  lemma ConsDescending(a: Score, rest: seq<Score>)
    requires Descending(rest)
    requires |rest| > 0 ==> a.value >= rest[0].value
    ensures Descending([a] + rest)
  {
    var r := [a] + rest;
    forall i | 0 < i < |r|
      ensures r[i - 1].value >= r[i].value
    {
      if i > 1 {
        assert r[i - 1] == rest[i - 2] && r[i] == rest[i - 1];
      }
    }
  }

  /** Inserts x before the first score it does not sort after. */
  function Insert(x: Score, xs: seq<Score>): (r: seq<Score>)
    requires Descending(xs)
    ensures |r| == |xs| + 1 && (r[0] == x || (|xs| > 0 && r[0] == xs[0]))
    ensures Descending(r)
    ensures multiset(r) == multiset(xs) + multiset{x}
    decreases |xs|
  {
    if xs == [] || ByValue(x, xs[0]) <= 0 then
      ConsDescending(x, xs);
      [x] + xs
    else
      var rest := Insert(x, xs[1..]);
      InsertBehind(x, xs[0], xs[1..], rest);
      assert xs == [xs[0]] + xs[1..];
      [xs[0]] + rest
  }

  /** The step of Insert that keeps the head: x goes somewhere into the tail. */
  lemma InsertBehind(x: Score, h: Score, tail: seq<Score>, rest: seq<Score>)
    requires Descending([h] + tail) && h.value > x.value
    requires |rest| == |tail| + 1 && (rest[0] == x || (|tail| > 0 && rest[0] == tail[0]))
    requires Descending(rest) && multiset(rest) == multiset(tail) + multiset{x}
    ensures Descending([h] + rest)
    ensures multiset([h] + rest) == multiset([h] + tail) + multiset{x}
  {
    if |tail| > 0 {
      var xs := [h] + tail;
      assert xs[0] == h && xs[1] == tail[0];
      assert xs[0].value >= xs[1].value;
    }
    ConsDescending(h, rest);
  }

  /**
   * List.Sort() with the intended comparer: the scores in descending order
   * of value. (List.Sort is not stable; this is one of the orders it may
   * produce, the one that keeps equal values in their input order.)
   */
  function SortDescending(xs: seq<Score>): (r: seq<Score>)
    ensures Descending(r)
    ensures multiset(r) == multiset(xs)
    decreases |xs|
  {
    if xs == [] then []
    else
      assert xs == [xs[0]] + xs[1..];
      Insert(xs[0], SortDescending(xs[1..]))
  }

  // ---------------------------------------------------------------------
  // Writing

  /**
   * The length GetComponents computes for a value,
   * (long)Math.Ceiling(Math.Log(value, 8)): a floating-point result, given
   * as a parameter.
   */
  type LengthRule = int32 -> int

  /** A length GetComponents can serve: at most the eight bytes of a long. */
  type ComponentCount = k: nat | k <= 8

  /**
   * The exception GetComponents raises for a length it cannot serve: below 0
   * the array allocation fails, above 8 the copy reads past the long's bytes.
   */
  datatype WriteError = ComponentsFailed(length: int)

  predicate Writable(v: int32, components: LengthRule)
  {
    0 <= components(v) <= 8
  }

  /** (byte)c for each character: its low eight bits. */
  function NameBytes(name: string): (bs: seq<byte>)
    ensures |bs| == |name|
    ensures forall i :: 0 <= i < |name| ==> bs[i] == (name[i] as int) % 256
  {
    seq(|name|, i requires 0 <= i < |name| => (name[i] as int) % 256)
  }

  /** The first k bytes of BitConverter.GetBytes(v): little-endian two's complement. */
  function LowBytes(v: int, k: nat): (bs: seq<byte>)
    ensures |bs| == k
    decreases k
  {
    if k == 0 then [] else [v % 256] + LowBytes(v / 256, k - 1)
  }

  /** GetComponents(value): the low bytes of the value, as many as the length, or the exception. */
  function GetComponents(v: int32, components: LengthRule): (r: Result<seq<byte>, WriteError>)
    ensures r.Ok? <==> Writable(v, components)
    ensures r.Ok? ==> |r.value| == components(v) && r.value == LowBytes(v, components(v))
    ensures r.Err? ==> r.error == ComponentsFailed(components(v))
  {
    var length := components(v);
    if length < 0 || length > 8 then Err(ComponentsFailed(length)) else Ok(LowBytes(v, length))
  }

  /** The length byte and the name bytes, which Write emits before it calls GetComponents. */
  function Header(s: Score): seq<byte>
  {
    [|s.name| % 256] + NameBytes(s.name)
  }

  /** The record Write emits for a score whose length GetComponents serves. */
  function EncodeScore(s: Score, components: LengthRule): seq<byte>
    requires Writable(s.value, components)
  {
    var bs := LowBytes(s.value, components(s.value));
    Header(s) + [|bs| % 256] + bs
  }

  /** The bytes a write appends, and the exception that stopped it, if any. */
  datatype Emitted = Emitted(bytes: seq<byte>, error: Option<WriteError>)

  /** What Write emits for one score: its record, or its header and then the exception. */
  function Piece(s: Score, components: LengthRule): Emitted
  {
    if Writable(s.value, components) then Emitted(EncodeScore(s, components), Nothing)
    else Emitted(Header(s), Some(ComponentsFailed(components(s.value))))
  }

  /** Write(list): the pieces of the scores in list order, up to the first exception. */
  function Emit(xs: seq<Score>, components: LengthRule): Emitted
    decreases |xs|
  {
    if xs == [] then Emitted([], Nothing)
    else
      var p := Piece(xs[0], components);
      if p.error.Some? then p
      else
        var rest := Emit(xs[1..], components);
        Emitted(p.bytes + rest.bytes, rest.error)
  }

  /** The bytes Write(list) appends. */
  function EncodeAll(xs: seq<Score>, components: LengthRule): seq<byte>
  {
    Emit(xs, components).bytes
  }

  lemma Reassociate<T>(a: seq<T>, b: seq<T>, c: seq<T>)
    ensures (a + b) + c == a + (b + c)
  {
  }

  /** Appending a record's four parts one by one appends the record. */
  lemma AppendRecord<T>(before: seq<T>, a: seq<T>, b: seq<T>, c: seq<T>, d: seq<T>)
    ensures before + a + b + c + d == before + (a + b + c + d)
  {
    Reassociate(before, a, b);
    Reassociate(before, a + b, c);
    Reassociate(before, a + b + c, d);
  }

  /**
   * Writing two lists one after the other: the second is written only if
   * the first raised nothing, and then its bytes follow the first's.
   */
  lemma {:induction false} EmitAppend(xs: seq<Score>, ys: seq<Score>, components: LengthRule)
    ensures Emit(xs + ys, components)
         == if Emit(xs, components).error.Some? then Emit(xs, components)
            else Emitted(EncodeAll(xs, components) + EncodeAll(ys, components), Emit(ys, components).error)
    decreases |xs|
  {
    if xs == [] {
      assert xs + ys == ys;
      assert [] + EncodeAll(ys, components) == EncodeAll(ys, components);
    } else {
      assert (xs + ys)[0] == xs[0];
      assert (xs + ys)[1..] == xs[1..] + ys;
      EmitAppend(xs[1..], ys, components);
      var p := Piece(xs[0], components);
      if p.error.Nothing? && Emit(xs[1..], components).error.Nothing? {
        Reassociate(p.bytes, EncodeAll(xs[1..], components), EncodeAll(ys, components));
      }
    }
  }

  /** Writing one score emits its piece. */
  lemma EmitOne(s: Score, components: LengthRule)
    ensures Emit([s], components) == Piece(s, components)
  {
    var p := Piece(s, components);
    if p.error.Nothing? {
      assert [s][1..] == [];
      assert p.bytes + [] == p.bytes;
    }
  }

  /** After the first j scores raised nothing, score j adds its piece. */
  lemma EmitSnoc(xs: seq<Score>, j: nat, components: LengthRule)
    requires j < |xs| && Emit(xs[..j], components).error.Nothing?
    ensures Emit(xs[..j + 1], components)
         == Emitted(EncodeAll(xs[..j], components) + Piece(xs[j], components).bytes, Piece(xs[j], components).error)
  {
    assert xs[..j + 1] == xs[..j] + [xs[j]];
    EmitAppend(xs[..j], [xs[j]], components);
    EmitOne(xs[j], components);
  }

  /** Once the first k scores raised an exception, the rest are not written. */
  lemma EmitStops(xs: seq<Score>, k: nat, components: LengthRule)
    requires k <= |xs| && Emit(xs[..k], components).error.Some?
    ensures Emit(xs, components) == Emit(xs[..k], components)
  {
    assert xs == xs[..k] + xs[k..];
    EmitAppend(xs[..k], xs[k..], components);
  }

  /** A list whose every length GetComponents serves is written whole, one record after another. */
  lemma {:induction false} EmitWritable(xs: seq<Score>, components: LengthRule)
    requires forall i :: 0 <= i < |xs| ==> Writable(xs[i].value, components)
    ensures Emit(xs, components).error == Nothing
    ensures xs != [] ==> EncodeAll(xs, components) == EncodeScore(xs[0], components) + EncodeAll(xs[1..], components)
    decreases |xs|
  {
    if xs != [] {
      EmitWritable(xs[1..], components);
    }
  }

  /**
   * Write stops at the first score whose length GetComponents cannot serve,
   * having emitted the records before it and that score's header.
   */
  lemma EmitFirstFailure(xs: seq<Score>, i: nat, components: LengthRule)
    requires i < |xs| && !Writable(xs[i].value, components)
    requires forall j :: 0 <= j < i ==> Writable(xs[j].value, components)
    ensures Emit(xs, components)
         == Emitted(EncodeAll(xs[..i], components) + Header(xs[i]), Some(ComponentsFailed(components(xs[i].value))))
  {
    EmitWritable(xs[..i], components);
    EmitSnoc(xs, i, components);
    EmitStops(xs, i + 1, components);
  }

  // ---------------------------------------------------------------------
  // Reading

  /** The EndOfStreamException of SafeReadByte, with the stream position. */
  datatype ReadError = EndOfStream(position: nat)

  /** Stream.ReadByte at position q: the byte there, or -1 at the end of the stream. */
  function ReadByte(f: seq<byte>, q: nat): (b: int)
    ensures -1 <= b < 256
    ensures b == -1 <==> q >= |f|
    ensures q < |f| ==> b == f[q]
  {
    if q < |f| then f[q] else -1
  }

  /** SafeReadByte: the byte at q, or EndOfStream when the stream is exhausted. */
  function SafeReadByte(f: seq<byte>, q: nat): (r: Result<byte, ReadError>)
    ensures r.Ok? <==> q < |f|
    ensures r.Ok? ==> r.value == f[q]
    ensures r.Err? ==> r.error == EndOfStream(q)
  {
    if q >= |f| then Err(EndOfStream(q)) else Ok(f[q])
  }

  /** (char) of ReadByte's result: -1 becomes U+FFFF. */
  function CharOf(b: int): char
    requires -1 <= b < 256
  {
    if b < 0 then 0xFFFF as char else b as char
  }

  /** The stream position after n reads from q: reads at the end do not move it. */
  function Advance(q: nat, n: nat, len: nat): (r: nat)
    requires q <= len
    ensures q <= r <= len
    ensures r == q + n || r == len
  {
    if q + n <= len then q + n else len
  }

  /** The name read by n unchecked ReadByte calls from q. */
  function NameFrom(f: seq<byte>, q: nat, n: nat): (name: string)
    ensures |name| == n
    ensures forall i :: 0 <= i < n ==> name[i] == CharOf(ReadByte(f, q + i))
  {
    seq(n, i requires 0 <= i < n => CharOf(ReadByte(f, q + i)))
  }

  /** The multiplier before the i-th value byte: 256^i in int arithmetic, which wraps to 0 from i = 4. */
  function Multiplier(i: nat): (m: int32)
    ensures m == if i < 4 then Pow256(i) else 0
  {
    if i == 0 then 1
    else
      assert Pow256(2) == 0x1_0000 && Pow256(3) == 0x100_0000;
      Wrap32(Multiplier(i - 1) * 256)
  }

  /** The value accumulated from k unchecked ReadByte calls from q, in int arithmetic. */
  function ValueFrom(f: seq<byte>, q: nat, k: nat): int32
  {
    if k == 0 then 0
    else Wrap32(ValueFrom(f, q, k - 1) + Wrap32(Multiplier(k - 1) * ReadByte(f, q + k - 1)))
  }

  /** The value after i + 1 reads is the value after i plus the next byte times its multiplier. */
  lemma ValueFromStep(f: seq<byte>, q: nat, i: nat, value: int, multiplier: int, b: int)
    requires value == ValueFrom(f, q, i) && multiplier == Multiplier(i) && b == ReadByte(f, q + i)
    ensures ValueFrom(f, q, i + 1) == Wrap32(value + Wrap32(multiplier * b))
    ensures Multiplier(i + 1) == Wrap32(multiplier * 256)
  {
  }

  /** The scores read so far ahead of the outcome of reading the rest. */
  function Prepend(done: seq<Score>, rest: Result<seq<Score>, ReadError>): Result<seq<Score>, ReadError>
  {
    match rest
    case Ok(xs) => Ok(done + xs)
    case Err(e) => Err(e)
  }

  lemma PrependNothing(rest: Result<seq<Score>, ReadError>)
    ensures Prepend([], rest) == rest
  {
    if rest.Ok? {
      assert [] + rest.value == rest.value;
    }
  }

  lemma PrependAssoc(done: seq<Score>, more: seq<Score>, rest: Result<seq<Score>, ReadError>)
    ensures Prepend(done, Prepend(more, rest)) == Prepend(done + more, rest)
  {
    if rest.Ok? {
      assert done + (more + rest.value) == (done + more) + rest.value;
    }
  }

  /**
   * The record at position p: its score and the position after it, or the
   * exception raised when no byte is left for its value length. Only that
   * byte is read with SafeReadByte; name and value bytes past the end read
   * as -1.
   */
  function RecordAt(f: seq<byte>, p: nat): (r: Result<(Score, nat), ReadError>)
    requires p < |f|
    ensures r.Ok? ==> p < r.value.1 <= |f|
  {
    var n := f[p];
    var q := Advance(p + 1, n, |f|);
    match SafeReadByte(f, q)
    case Err(e) => Err(e)
    case Ok(k) => Ok((Score(NameFrom(f, p + 1, n), ValueFrom(f, q + 1, k)), Advance(q + 1, k, |f|)))
  }

  /** The scores of the records from position p to the end of the file, or the exception Read raises. */
  function DecodeFrom(f: seq<byte>, p: nat): Result<seq<Score>, ReadError>
    requires p <= |f|
    decreases |f| - p
  {
    if p == |f| then Ok([])
    else
      match RecordAt(f, p)
      case Err(e) => Err(e)
      case Ok((s, next)) => Prepend([s], DecodeFrom(f, next))
  }

  /** The scores of the whole file, or the exception Read raises. */
  function Decode(f: seq<byte>): Result<seq<Score>, ReadError>
  {
    DecodeFrom(f, 0)
  }

  /** Value bytes past the end of the file read as -1 and are not reported: "A" with bytes 5, -1 reads as -251. */
  lemma TruncatedValueIsNotReported()
    ensures Decode([1, 65, 2, 5]) == Ok([Score("A", -251)])
  {
    var f: seq<byte> := [1, 65, 2, 5];
    assert NameFrom(f, 1, 1) == "A";
    assert Multiplier(1) == 256;
    assert ValueFrom(f, 3, 1) == 5;
    assert ValueFrom(f, 3, 2) == Wrap32(5 + Wrap32(256 * -1));
    assert RecordAt(f, 0) == Ok((Score("A", -251), 4));
    DecodeFromStep(f, 0);
    assert DecodeFrom(f, 4) == Ok([]);
    assert [Score("A", -251)] + [] == [Score("A", -251)];
    assert Decode(f) == Ok([Score("A", -251)]);
  }

  /** A name length that runs past the end of the file leaves no byte for the value length. */
  lemma TruncatedNameRaises()
    ensures Decode([3, 65]) == Err(EndOfStream(2))
  {
  }

  // ---------------------------------------------------------------------
  // Round trip

  /** Little-endian value of a byte sequence. */
  function LittleEndian(bs: seq<byte>): int
  {
    if bs == [] then 0 else bs[0] + 256 * LittleEndian(bs[1..])
  }

  lemma {:induction false} LittleEndianSnoc(bs: seq<byte>, b: byte)
    ensures LittleEndian(bs + [b]) == LittleEndian(bs) + Pow256(|bs|) * b
    decreases |bs|
  {
    if bs != [] {
      var t := bs[1..];
      assert (bs + [b])[0] == bs[0] && (bs + [b])[1..] == t + [b];
      LittleEndianSnoc(t, b);
      var l, w := LittleEndian(t), Pow256(|t|);
      assert LittleEndian(bs + [b]) == bs[0] + 256 * (l + w * b);
      assert 256 * (l + w * b) == 256 * l + (256 * w) * b;
    }
  }

  /** The low k bytes hold the value modulo 256^k. */
  lemma {:induction false} LowBytesValue(v: int, k: nat)
    ensures LittleEndian(LowBytes(v, k)) == v % Pow256(k)
    decreases k
  {
    if k == 0 {
    } else {
      LowBytesValue(v / 256, k - 1);
      var p := Pow256(k - 1);
      var q, r := v / 256, v % 256;
      var t, s := q / p, q % p;
      assert q == p * t + s;
      assert v == 256 * q + r;
      assert v == (256 * p) * t + (256 * s + r);
      ModUnique(v, 256 * p, t, 256 * s + r);
    }
  }

  /** Fewer low bytes are a prefix of more. */
  lemma {:induction false} LowBytesPrefix(v: int, k: nat, j: nat)
    requires j <= k
    ensures LowBytes(v, k)[..j] == LowBytes(v, j)
    decreases j
  {
    if j > 0 {
      LowBytesPrefix(v / 256, k - 1, j - 1);
    }
  }

  /** What the i-th value byte b contributes: b times 256^i for the first four, nothing after. */
  function Weight(i: nat, b: int): int
  {
    if i < 4 then Pow256(i) * b else 0
  }

  /** The wrapped multiplier times a byte is exactly that contribution. */
  lemma MultiplierWeight(i: nat, b: int)
    ensures Multiplier(i) * b == Weight(i, b)
  {
    if i >= 4 {
      assert Multiplier(i) == 0;
    }
  }

  /** The exact value before wrapping: the sum of the contributions of the value bytes. */
  function ExactValue(f: seq<byte>, q: nat, k: nat): int
  {
    if k == 0 then 0 else ExactValue(f, q, k - 1) + Weight(k - 1, ReadByte(f, q + k - 1))
  }

  /** Wrapping after every step is wrapping once at the end. */
  lemma {:induction false} ValueFromIsWrappedSum(f: seq<byte>, q: nat, k: nat)
    ensures ValueFrom(f, q, k) == Wrap32(ExactValue(f, q, k))
    decreases k
  {
    if k > 0 {
      ValueFromIsWrappedSum(f, q, k - 1);
      MultiplierWeight(k - 1, ReadByte(f, q + k - 1));
      WrapAccumulate(ValueFrom(f, q, k - 1), ExactValue(f, q, k - 1), Weight(k - 1, ReadByte(f, q + k - 1)));
    }
  }

  function Min(a: nat, b: nat): nat
  {
    if a < b then a else b
  }

  /** Over bytes inside the file, the exact value is the little-endian value of at most the first four. */
  lemma {:induction false} ExactValueInside(f: seq<byte>, q: nat, k: nat)
    requires q + k <= |f|
    ensures ExactValue(f, q, k) == LittleEndian(f[q..q + Min(k, 4)])
    decreases k
  {
    if k > 0 {
      ExactValueInside(f, q, k - 1);
      var b := f[q + k - 1];
      assert ReadByte(f, q + k - 1) == b;
      if k - 1 < 4 {
        assert Min(k, 4) == k && Min(k - 1, 4) == k - 1;
        assert f[q..q + k] == f[q..q + k - 1] + [b];
        LittleEndianSnoc(f[q..q + k - 1], b);
      } else {
        assert Min(k, 4) == Min(k - 1, 4);
      }
    }
  }

  /** What a score reads back as: its name, and its value cut to the bytes written, in int arithmetic. */
  function Stored(s: Score, components: LengthRule): Score
    requires Writable(s.value, components)
  {
    Score(s.name, Wrap32(LittleEndian(LowBytes(s.value, Min(components(s.value), 4)))))
  }

  /** A name survives when it is shorter than 256 characters, each below 256. */
  predicate NameEncodable(name: string)
  {
    |name| < 256 && forall i :: 0 <= i < |name| ==> name[i] as int < 256
  }

  /** A value survives when all four bytes are written, or the bytes written hold it. */
  predicate ValueEncodable(v: int32, components: LengthRule)
  {
    components(v) >= 4 || (components(v) >= 0 && 0 <= v < Pow256(components(v)))
  }

  /** A score survives when its name does, GetComponents serves its length, and its value survives. */
  predicate Encodable(s: Score, components: LengthRule)
  {
    NameEncodable(s.name) && Writable(s.value, components) && ValueEncodable(s.value, components)
  }

  lemma Pow256Four()
    ensures Pow256(4) == TWO_32
  {
    assert Pow256(1) == 256;
    assert Pow256(2) == 0x1_0000;
    assert Pow256(3) == 0x100_0000;
  }

  /** An encodable score reads back unchanged. */
  lemma StoredEncodable(s: Score, components: LengthRule)
    requires Writable(s.value, components) && ValueEncodable(s.value, components)
    ensures Stored(s, components) == s
  {
    var k := components(s.value);
    var v: int := s.value;
    var m := Min(k, 4);
    LowBytesValue(v, m);
    if k >= 4 {
      assert m == 4;
      Pow256Four();
      var t := v / TWO_32;
      assert v % TWO_32 == v + (-t) * TWO_32;
      WrapShift(v, -t);
    } else {
      assert m == k;
      ModUnique(v, Pow256(k), 0, v);
    }
  }

  /** The scores as they read back. */
  function StoredAll(xs: seq<Score>, components: LengthRule): (r: seq<Score>)
    requires forall i :: 0 <= i < |xs| ==> Writable(xs[i].value, components)
    ensures |r| == |xs|
    decreases |xs|
  {
    if xs == [] then [] else [Stored(xs[0], components)] + StoredAll(xs[1..], components)
  }

  lemma {:induction false} StoredAllEncodable(xs: seq<Score>, components: LengthRule)
    requires forall i :: 0 <= i < |xs| ==> Writable(xs[i].value, components) && ValueEncodable(xs[i].value, components)
    ensures StoredAll(xs, components) == xs
    decreases |xs|
  {
    if xs != [] {
      StoredEncodable(xs[0], components);
      StoredAllEncodable(xs[1..], components);
    }
  }

  /** Slice [i..j] of slice [a..b] is slice [c..d] of the whole, for c = a + i and d = a + j. */
  lemma SliceOfSlice(f: seq<byte>, a: nat, b: nat, i: nat, j: nat, c: nat, d: nat)
    requires a <= b <= |f| && i <= j <= b - a
    requires c == a + i && d == a + j
    ensures f[a..b][i..j] == f[c..d]
  {
    assert forall k :: 0 <= k < j - i ==> f[a..b][i..j][k] == f[a + i + k];
  }

  /** A file whose tail from p is e followed by rest holds e at p and rest after it. */
  lemma SplitTail(f: seq<byte>, p: nat, e: seq<byte>, rest: seq<byte>)
    requires p <= |f| && f[p..] == e + rest
    ensures p + |e| <= |f|
    ensures f[p..p + |e|] == e
    ensures f[p + |e|..] == rest
  {
    assert forall k :: 0 <= k < |e| ==> f[p + k] == f[p..][k] == e[k];
    assert forall k :: 0 <= k < |rest| ==> f[p + |e| + k] == f[p..][|e| + k] == rest[k];
  }

  /** Name bytes inside the file read back as the name. */
  lemma NameReadsBack(f: seq<byte>, q: nat, name: string)
    requires NameEncodable(name)
    requires q + |name| <= |f| && f[q..q + |name|] == NameBytes(name)
    ensures NameFrom(f, q, |name|) == name
  {
    forall i | 0 <= i < |name|
      ensures NameFrom(f, q, |name|)[i] == name[i]
    {
      assert f[q + i] == f[q..q + |name|][i];
    }
  }

  /** The low k bytes of v inside the file read back as v cut to at most four of them. */
  lemma ValueReadsBack(f: seq<byte>, q: nat, v: int, k: nat)
    requires q + k <= |f| && f[q..q + k] == LowBytes(v, k)
    ensures ValueFrom(f, q, k) == Wrap32(LittleEndian(LowBytes(v, Min(k, 4))))
  {
    ValueFromIsWrappedSum(f, q, k);
    ExactValueInside(f, q, k);
    SliceOfSlice(f, q, q + k, 0, Min(k, 4), q, q + Min(k, 4));
    LowBytesPrefix(v, k, Min(k, 4));
  }

  /** Where the parts of a length-prefixed record written at position p of f lie. */
  lemma RecordParts<T>(f: seq<T>, p: nat, a: T, b: seq<T>, c: T, d: seq<T>)
    requires p + |b| + |d| + 2 <= |f| && f[p..p + |b| + |d| + 2] == [a] + b + [c] + d
    ensures f[p] == a && f[p + 1 + |b|] == c
    ensures f[p + 1..p + 1 + |b|] == b && f[p + 2 + |b|..p + 2 + |b| + |d|] == d
  {
    var w := f[p..p + |b| + |d| + 2];
    assert f[p] == w[0] && f[p + 1 + |b|] == w[1 + |b|];
    assert forall i :: 0 <= i < |b| ==> f[p + 1..p + 1 + |b|][i] == w[1 + i] == b[i];
    assert forall i :: 0 <= i < |d| ==> f[p + 2 + |b|..p + 2 + |b| + |d|][i] == w[2 + |b| + i] == d[i];
  }

  /** The fields of one record written at position p of f, and where it ends. */
  lemma RecordLayout(f: seq<byte>, p: nat, s: Score, components: LengthRule)
    requires |s.name| < 256 && Writable(s.value, components)
    requires p + |EncodeScore(s, components)| <= |f|
    requires f[p..p + |EncodeScore(s, components)|] == EncodeScore(s, components)
    ensures var n := |s.name|; var k := components(s.value); var q := p + 1 + n;
      |EncodeScore(s, components)| == n + k + 2 && f[p] == n && f[q] == k
      && f[p + 1..q] == NameBytes(s.name) && f[q + 1..q + 1 + k] == LowBytes(s.value, k)
  {
    var n := |s.name|;
    var nb := NameBytes(s.name);
    var k := components(s.value);
    var bs := LowBytes(s.value, k);
    assert |s.name| % 256 == n && |bs| % 256 == k;
    assert EncodeScore(s, components) == [n] + nb + [k] + bs;
    RecordParts(f, p, n, nb, k, bs);
  }

  /** One record written at position p of f reads back as the stored score, and ends where the record ends. */
  lemma RecordReadsBack(f: seq<byte>, p: nat, s: Score, components: LengthRule)
    requires NameEncodable(s.name) && Writable(s.value, components)
    requires p + |EncodeScore(s, components)| <= |f|
    requires f[p..p + |EncodeScore(s, components)|] == EncodeScore(s, components)
    ensures RecordAt(f, p) == Ok((Stored(s, components), p + |EncodeScore(s, components)|))
  {
    RecordLayout(f, p, s, components);
    var n := |s.name|;
    var k := components(s.value);
    var q := p + 1 + n;
    NameReadsBack(f, p + 1, s.name);
    ValueReadsBack(f, q + 1, s.value, k);
    assert Advance(p + 1, n, |f|) == q;
    assert SafeReadByte(f, q) == Ok(k);
    var read := Score(NameFrom(f, p + 1, n), ValueFrom(f, q + 1, k));
    assert read == Stored(s, components);
    assert RecordAt(f, p) == Ok((read, Advance(q + 1, k, |f|)));
  }

  /** Reading from p reads the record at p and then the records after it. */
  lemma DecodeFromStep(f: seq<byte>, p: nat)
    requires p < |f|
    ensures match RecordAt(f, p)
      case Err(e) => DecodeFrom(f, p) == Err(e)
      case Ok((s, next)) => DecodeFrom(f, p) == Prepend([s], DecodeFrom(f, next))
  {
  }

  /** A record read at p is followed by the records from where it ends. */
  lemma DecodeFromRecord(f: seq<byte>, p: nat, s: Score, next: nat)
    requires p < |f| && RecordAt(f, p) == Ok((s, next))
    ensures DecodeFrom(f, p) == Prepend([s], DecodeFrom(f, next))
  {
  }

  /** Every score of xs has a name that survives and a value whose byte count can be written. */
  predicate RecordsWritable(xs: seq<Score>, components: LengthRule)
  {
    forall i :: 0 <= i < |xs| ==> NameEncodable(xs[i].name) && Writable(xs[i].value, components)
  }

  lemma RecordsWritableTail(xs: seq<Score>, components: LengthRule)
    requires xs != [] && RecordsWritable(xs, components)
    ensures NameEncodable(xs[0].name) && Writable(xs[0].value, components)
    ensures RecordsWritable(xs[1..], components)
  {
    forall i | 0 <= i < |xs| - 1
      ensures NameEncodable(xs[1..][i].name) && Writable(xs[1..][i].value, components)
    {
      assert xs[1..][i] == xs[i + 1];
    }
  }

  /** Reading from p gives the scores done ahead of whatever reading from r gives. */
  predicate ReadsAhead(f: seq<byte>, p: nat, done: seq<Score>, r: nat)
  {
    p <= r <= |f| && DecodeFrom(f, p) == Prepend(done, DecodeFrom(f, r))
  }

  /** A record at p followed by scores read ahead of r: the record's score and those scores are read ahead of r. */
  lemma ReadsAheadRecord(f: seq<byte>, p: nat, s: Score, q: nat, later: seq<Score>, r: nat, all: seq<Score>)
    requires p < |f| && RecordAt(f, p) == Ok((s, q)) && ReadsAhead(f, q, later, r) && all == [s] + later
    ensures ReadsAhead(f, p, all, r)
  {
    DecodeFromRecord(f, p, s, q);
    PrependAssoc([s], later, DecodeFrom(f, r));
  }

  /** The n records from position p: their scores and the position after them, or Nothing when one of them cannot be read. */
  function RecordsFrom(f: seq<byte>, p: nat, n: nat): Option<(seq<Score>, nat)>
    decreases n
  {
    if n == 0 then (if p <= |f| then Some(([], p)) else Nothing)
    else if p < |f| && RecordAt(f, p).Ok? then
      match RecordsFrom(f, RecordAt(f, p).value.1, n - 1)
      case Nothing => Nothing
      case Some((ys, r)) => Some(([RecordAt(f, p).value.0] + ys, r))
    else Nothing
  }

  lemma RecordsFromCons(f: seq<byte>, p: nat, s: Score, q: nat, n: nat, later: seq<Score>, r: nat, all: seq<Score>)
    requires p < |f| && RecordAt(f, p) == Ok((s, q)) && RecordsFrom(f, q, n) == Some((later, r)) && all == [s] + later
    ensures RecordsFrom(f, p, n + 1) == Some((all, r))
  {
  }

  /** Records that run from p to r are read ahead of whatever reading from r gives. */
  lemma {:induction false} RecordsFromReadAhead(f: seq<byte>, p: nat, n: nat, ys: seq<Score>, r: nat)
    requires RecordsFrom(f, p, n) == Some((ys, r))
    ensures ReadsAhead(f, p, ys, r)
    decreases n
  {
    if n == 0 {
      PrependNothing(DecodeFrom(f, p));
    } else {
      var s, q := RecordAt(f, p).value.0, RecordAt(f, p).value.1;
      var later := RecordsFrom(f, q, n - 1).value.0;
      RecordsFromReadAhead(f, q, n - 1, later, r);
      ReadsAheadRecord(f, p, s, q, later, r, ys);
    }
  }

  /** Scores written from position p lie there as records of the stored scores. */
  lemma {:induction false} RecordsWritten(f: seq<byte>, p: nat, xs: seq<Score>, tail: seq<byte>, components: LengthRule, r: nat)
    requires RecordsWritable(xs, components)
    requires p <= |f| && f[p..] == EncodeAll(xs, components) + tail && r == p + |EncodeAll(xs, components)|
    ensures RecordsFrom(f, p, |xs|) == Some((StoredAll(xs, components), r))
    decreases |xs|
  {
    if xs == [] {
      assert StoredAll(xs, components) == [] && |EncodeAll(xs, components)| == 0;
    } else {
      RecordsWritableTail(xs, components);
      var e := EncodeScore(xs[0], components);
      var rest := EncodeAll(xs[1..], components);
      var q := p + |e|;
      assert EncodeAll(xs, components) == e + rest by {
        EmitWritable(xs, components);
      }
      assert q <= |f| && f[p..q] == e && f[q..] == rest + tail by {
        Reassociate(e, rest, tail);
        SplitTail(f, p, e, rest + tail);
      }
      var s0, later := Stored(xs[0], components), StoredAll(xs[1..], components);
      assert RecordAt(f, p) == Ok((s0, q)) by {
        RecordReadsBack(f, p, xs[0], components);
      }
      assert r == q + |rest|;
      RecordsWritten(f, q, xs[1..], tail, components, r);
      assert StoredAll(xs, components) == [s0] + later;
      RecordsFromCons(f, p, s0, q, |xs[1..]|, later, r, StoredAll(xs, components));
    }
  }

  /** Records written from position p read back as the stored scores, ahead of whatever follows them. */
  lemma RecordsReadBack(f: seq<byte>, p: nat, xs: seq<Score>, tail: seq<byte>, components: LengthRule, r: nat)
    requires RecordsWritable(xs, components)
    requires p <= |f| && f[p..] == EncodeAll(xs, components) + tail && r == p + |EncodeAll(xs, components)|
    ensures ReadsAhead(f, p, StoredAll(xs, components), r)
  {
    RecordsWritten(f, p, xs, tail, components, r);
    RecordsFromReadAhead(f, p, |xs|, StoredAll(xs, components), r);
  }

  /** The scores of a file written by this program read back as each score with its value cut to the bytes written. */
  lemma DecodeEncodeStored(xs: seq<Score>, components: LengthRule)
    requires RecordsWritable(xs, components)
    ensures Decode(EncodeAll(xs, components)) == Ok(StoredAll(xs, components))
  {
    var f := EncodeAll(xs, components);
    assert f[0..] == f + [];
    RecordsReadBack(f, 0, xs, [], components, |f|);
    assert StoredAll(xs, components) + [] == StoredAll(xs, components);
  }

  /** Reading a file written by this program gives back every score it wrote, in order, when each is encodable. */
  lemma DecodeEncodeAll(xs: seq<Score>, components: LengthRule)
    requires forall i :: 0 <= i < |xs| ==> Encodable(xs[i], components)
    ensures Emit(xs, components).error == Nothing
    ensures Decode(EncodeAll(xs, components)) == Ok(xs)
  {
    EmitWritable(xs, components);
    DecodeEncodeStored(xs, components);
    StoredAllEncodable(xs, components);
  }

  // ---------------------------------------------------------------------
  // The byte count

  /**
   * A byte count that always holds the value: the fewest bytes for a
   * non-negative value, all four for a negative one.
   */
  function FittingComponents(v: int32): (k: int)
    ensures 0 <= k <= 4
    ensures k == 4 || 0 <= v < Pow256(k)
  {
    assert Pow256(3) == 0x100_0000 && Pow256(2) == 0x1_0000 && Pow256(1) == 256;
    if v < 0 then 4
    else if v < 256 then 1
    else if v < 0x1_0000 then 2
    else if v < 0x100_0000 then 3
    else 4
  }

  /** With that count, every score with an encodable name survives a write and a read. */
  lemma FittingComponentsRoundTrip(xs: seq<Score>)
    requires forall i :: 0 <= i < |xs| ==> NameEncodable(xs[i].name)
    ensures Emit(xs, FittingComponents).error == Nothing
    ensures Decode(EncodeAll(xs, FittingComponents)) == Ok(xs)
  {
    forall i | 0 <= i < |xs|
      ensures Encodable(xs[i], FittingComponents)
    {
      var v := xs[i].value;
      var k := FittingComponents(v);
      assert k == 4 || 0 <= v < Pow256(k);
    }
    DecodeEncodeAll(xs, FittingComponents);
  }

  /**
   * A score of 1 is written with ceil(log8(1)) = 0 value bytes and so reads
   * back as 0.
   */
  lemma ScoreOfOneReadsBackAsZero(name: string, components: LengthRule)
    requires NameEncodable(name) && components(1) == 0
    ensures Decode(EncodeAll([Score(name, 1)], components)) == Ok([Score(name, 0)])
  {
    var xs := [Score(name, 1)];
    DecodeEncodeStored(xs, components);
    assert StoredAll(xs, components) == [Stored(xs[0], components)];
  }

  /**
   * Write raises after a record's name bytes when GetComponents fails, so the
   * file ends in a header with no value length: every later Read raises
   * EndOfStream at the end of the file, losing the scores before it too.
   */
  lemma PartialRecordBreaksFile(xs: seq<Score>, s: Score, components: LengthRule)
    requires RecordsWritable(xs, components) && NameEncodable(s.name)
    ensures Decode(EncodeAll(xs, components) + Header(s))
         == Err(EndOfStream(|EncodeAll(xs, components)| + |Header(s)|))
  {
    var e, h := EncodeAll(xs, components), Header(s);
    var f, r := e + h, |e|;
    assert f[0..] == e + h && f[r..] == h;
    RecordsReadBack(f, 0, xs, h, components, r);
    LoneHeaderRaises(f, r, s);
  }

  /** A name header at the end of the file, with no value length after it, raises EndOfStream at the end. */
  lemma LoneHeaderRaises(f: seq<byte>, p: nat, s: Score)
    requires NameEncodable(s.name) && p <= |f| && f[p..] == Header(s)
    ensures DecodeFrom(f, p) == Err(EndOfStream(|f|))
  {
    var n := |s.name|;
    assert |f| == p + 1 + n;
    assert f[p] == f[p..][0] == n;
    assert Advance(p + 1, n, |f|) == |f|;
    assert RecordAt(f, p) == Err(EndOfStream(|f|));
  }

  /**
   * Appending any score whose ceil(log8(v)) lies outside 0..8 makes Write
   * raise after that score's header, and the file it leaves is unreadable.
   */
  lemma UnwritableScoreBreaksFile(xs: seq<Score>, s: Score, components: LengthRule)
    requires RecordsWritable(xs, components) && NameEncodable(s.name) && !Writable(s.value, components)
    ensures var w := Emit(xs + [s], components);
            w.error == Some(ComponentsFailed(components(s.value)))
            && Decode(w.bytes) == Err(EndOfStream(|w.bytes|))
  {
    var ys := xs + [s];
    assert ys[..|xs|] == xs && ys[|xs|] == s;
    assert forall j :: 0 <= j < |xs| ==> ys[j] == xs[j];
    EmitFirstFailure(ys, |xs|, components);
    PartialRecordBreaksFile(xs, s, components);
  }

  /**
   * ceil(log8(v)) exceeds the eight bytes of a long once v is above 8^8
   * (9 up to 8^9, 10 up to 8^10, 11 beyond): for 16777217 it is 9, the copy
   * runs past the end of GetBytes' array, and the list being written leaves
   * the file unreadable.
   */
  lemma LargeScoreBreaksFile(xs: seq<Score>, name: string, components: LengthRule)
    requires RecordsWritable(xs, components) && NameEncodable(name) && components(0x100_0001) == 9
    ensures var w := Emit(xs + [Score(name, 0x100_0001)], components);
            w.error == Some(ComponentsFailed(9)) && Decode(w.bytes) == Err(EndOfStream(|w.bytes|))
  {
    UnwritableScoreBreaksFile(xs, Score(name, 0x100_0001), components);
  }

  // ---------------------------------------------------------------------
  // The table

  /** The scores of xs not in ys, in order: those SaveScores writes. */
  function NotIn(xs: seq<Score>, ys: seq<Score>): (r: seq<Score>)
    ensures |r| <= |xs|
  {
    if xs == [] then []
    else if xs[|xs| - 1] in ys then NotIn(xs[..|xs| - 1], ys)
    else NotIn(xs[..|xs| - 1], ys) + [xs[|xs| - 1]]
  }

  /** The scores to save are exactly those of the table not in the file, and keep the table's order. */
  lemma {:induction false} NotInMembers(xs: seq<Score>, ys: seq<Score>)
    ensures forall s :: s in NotIn(xs, ys) <==> s in xs && s !in ys
    decreases |xs|
  {
    if xs != [] {
      var init := xs[..|xs| - 1];
      NotInMembers(init, ys);
      assert xs == init + [xs[|xs| - 1]];
    }
  }

  /** Whether score i is to be saved decides whether the scores to save grow by it. */
  lemma NotInSnoc(xs: seq<Score>, i: nat, ys: seq<Score>)
    requires i < |xs|
    ensures NotIn(xs[..i + 1], ys) == if xs[i] in ys then NotIn(xs[..i], ys) else NotIn(xs[..i], ys) + [xs[i]]
  {
    assert xs[..i + 1][..i] == xs[..i];
  }

  /** The scores to save of two lists one after the other are those of the first and then those of the second. */
  lemma {:induction false} NotInAppend(xs: seq<Score>, zs: seq<Score>, ys: seq<Score>)
    ensures NotIn(xs + zs, ys) == NotIn(xs, ys) + NotIn(zs, ys)
    decreases |zs|
  {
    if zs == [] {
      assert xs + zs == xs;
      assert NotIn(xs, ys) + [] == NotIn(xs, ys);
    } else {
      var init, last := zs[..|zs| - 1], zs[|zs| - 1];
      assert (xs + zs)[..|xs + zs| - 1] == xs + init;
      assert (xs + zs)[|xs + zs| - 1] == last;
      NotInAppend(xs, init, ys);
      if last !in ys {
        Reassociate(NotIn(xs, ys), NotIn(init, ys), [last]);
      }
    }
  }

  /** Saving score i writes its piece exactly when the file does not hold it already. */
  lemma SaveStep(xs: seq<Score>, i: nat, ys: seq<Score>, components: LengthRule)
    requires i < |xs| && Emit(NotIn(xs[..i], ys), components).error.Nothing?
    ensures xs[i] in ys ==> Emit(NotIn(xs[..i + 1], ys), components) == Emit(NotIn(xs[..i], ys), components)
    ensures xs[i] !in ys ==>
      Emit(NotIn(xs[..i + 1], ys), components)
      == Emitted(EncodeAll(NotIn(xs[..i], ys), components) + Piece(xs[i], components).bytes, Piece(xs[i], components).error)
  {
    NotInSnoc(xs, i, ys);
    if xs[i] !in ys {
      EmitAppend(NotIn(xs[..i], ys), [xs[i]], components);
      EmitOne(xs[i], components);
    }
  }

  /** Once saving the first k scores raised an exception, no later score is saved. */
  lemma SaveStops(xs: seq<Score>, k: nat, ys: seq<Score>, components: LengthRule)
    requires k <= |xs| && Emit(NotIn(xs[..k], ys), components).error.Some?
    ensures Emit(NotIn(xs, ys), components) == Emit(NotIn(xs[..k], ys), components)
  {
    assert xs == xs[..k] + xs[k..];
    NotInAppend(xs[..k], xs[k..], ys);
    EmitAppend(NotIn(xs[..k], ys), NotIn(xs[k..], ys), components);
  }

  /** The name padded with spaces to three characters. */
  function Pad(name: string): (p: string)
    ensures |p| == if |name| < 3 then 3 else |name|
    ensures p[..|name|] == name
    ensures forall i :: |name| <= i < |p| ==> p[i] == ' '
  {
    if |name| < 3 then name + seq(3 - |name|, _ => ' ') else name
  }

  /** The table after a new high score: the last entry removed, the new one added, sorted. */
  function Admit(table: seq<Score>, s: Score): seq<Score>
    requires |table| > 0
  {
    SortDescending(table[..|table| - 1] + [s])
  }

  /** A new high score keeps the table's length, its order, and every entry but the last. */
  lemma AdmitProperties(table: seq<Score>, s: Score)
    requires |table| > 0
    ensures var r := Admit(table, s);
      |r| == |table| && Descending(r) && s in r
      && multiset(r) == multiset(table) - multiset{table[|table| - 1]} + multiset{s}
  {
    var r := Admit(table, s);
    var kept := table[..|table| - 1];
    assert table == kept + [table[|table| - 1]];
    assert multiset(r) == multiset(kept) + multiset{s};
    assert |r| == |multiset(r)|;
    assert s in multiset(r);
  }

  /** A score enters a non-empty table exactly when it beats the last entry, the lowest of a sorted table. */
  predicate IsHighScore(table: seq<Score>, value: int32)
    requires |table| > 0
  {
    value > table[|table| - 1].value
  }

  lemma HighScoreBeatsAll(table: seq<Score>, value: int32)
    requires |table| > 0 && Descending(table)
    ensures IsHighScore(table, value) <==> exists i :: 0 <= i < |table| && value > table[i].value
  {
    if !IsHighScore(table, value) {
      forall i | 0 <= i < |table|
        ensures value <= table[i].value
      {
        DescendingOrdered(table, i, |table| - 1);
      }
    }
  }

  /** The table as LoadScores leaves it: the file's scores sorted, or the exception of reading them. */
  function Loaded(f: seq<byte>): Result<seq<Score>, ReadError>
  {
    match Decode(f)
    case Ok(xs) => Ok(SortDescending(xs))
    case Err(e) => Err(e)
  }

  /** What ReadHighScore can raise: a file that cannot be read, no score to compare with, or a score that cannot be written. */
  datatype TableError = Unreadable(cause: ReadError) | NoScores | Unwritable(failure: WriteError)

  /** The high-score table, the scores already in the file, and the file's bytes. */
  class HighScoreController {
    var file: seq<byte>
    var scores: seq<Score>
    var scoresInFile: seq<Score>
    /** The byte count GetComponents chooses for each value. */
    const components: LengthRule

    /** No scores are loaded at first. */
    constructor (file: seq<byte>, components: LengthRule)
      ensures this.file == file && this.components == components
      ensures scores == [] && scoresInFile == []
    {
      this.file := file;
      this.components := components;
      scores, scoresInFile := [], [];
    }

    /** The name loop of Read: n unchecked reads from position start. */
    method ReadName(start: nat, n: nat) returns (name: string, position: nat)
      requires start <= |file|
      ensures name == NameFrom(file, start, n)
      ensures position == Advance(start, n, |file|)
    {
      name, position := "", start;
      var i := 0;
      while i < n
        invariant i <= n
        invariant name == NameFrom(file, start, i)
        invariant position == Advance(start, i, |file|)
      {
        assert NameFrom(file, start, i + 1) == NameFrom(file, start, i) + [CharOf(ReadByte(file, start + i))];
        name := name + [CharOf(ReadByte(file, position))];
        if position < |file| {
          position := position + 1;
        }
        i := i + 1;
      }
    }

    /** The value loop of Read: k unchecked reads from position start, each times the running multiplier. */
    method ReadValue(start: nat, k: nat) returns (value: int32, position: nat)
      requires start <= |file|
      ensures value == ValueFrom(file, start, k)
      ensures position == Advance(start, k, |file|)
    {
      value, position := 0, start;
      var multiplier: int32 := 1;
      var i := 0;
      while i < k
        invariant i <= k
        invariant value == ValueFrom(file, start, i)
        invariant multiplier == Multiplier(i)
        invariant position == Advance(start, i, |file|)
      {
        var b := ReadByte(file, position);
        assert b == ReadByte(file, start + i);
        ValueFromStep(file, start, i, value, multiplier, b);
        value := Wrap32(value + Wrap32(multiplier * b));
        if position < |file| {
          position := position + 1;
        }
        multiplier := Wrap32(multiplier * 256);
        i := i + 1;
      }
    }

    /** ScoreIO.Read: the records from the start of the file to its end. */
    method Read() returns (r: Result<seq<Score>, ReadError>)
      ensures r == Decode(file)
    {
      var res: seq<Score> := [];
      var position: nat := 0;
      PrependNothing(DecodeFrom(file, 0));
      while position < |file|
        invariant position <= |file|
        invariant Decode(file) == Prepend(res, DecodeFrom(file, position))
        decreases |file| - position
      {
        var start := position;
        var nameLength := SafeReadByte(file, position).value;
        var name;
        name, position := ReadName(position + 1, nameLength);
        var scoreLength := SafeReadByte(file, position);
        if scoreLength.Err? {
          assert DecodeFrom(file, start) == Err(scoreLength.error);
          return Err(scoreLength.error);
        }
        var value;
        value, position := ReadValue(position + 1, scoreLength.value);
        var s := Score(name, value);
        assert DecodeFrom(file, start) == Prepend([s], DecodeFrom(file, position));
        PrependAssoc(res, [s], DecodeFrom(file, position));
        res := res + [s];
      }
      assert DecodeFrom(file, position) == Ok([]);
      assert res + [] == res;
      r := Ok(res);
    }

    /** The name loop of Write: (byte)c for each character c. */
    method WriteName(name: string)
      modifies this`file
      ensures file == old(file) + NameBytes(name)
    {
      for i := 0 to |name|
        invariant file == old(file) + NameBytes(name[..i])
      {
        assert NameBytes(name[..i + 1]) == NameBytes(name[..i]) + [(name[i] as int) % 256];
        file := file + [(name[i] as int) % 256];
      }
      assert name[..|name|] == name;
    }

    /** The component loop of Write: each byte in order. */
    method WriteBytes(bs: seq<byte>)
      modifies this`file
      ensures file == old(file) + bs
    {
      for i := 0 to |bs|
        invariant file == old(file) + bs[..i]
      {
        assert bs[..i + 1] == bs[..i] + [bs[i]];
        file := file + [bs[i]];
      }
      assert bs[..|bs|] == bs;
    }

    /** ScoreIO.Write(list): appends each score's record, in list order, until GetComponents raises an exception. */
    method Write(list: seq<Score>) returns (error: Option<WriteError>)
      modifies this`file
      ensures file == old(file) + EncodeAll(list, components)
      ensures error == Emit(list, components).error
    {
      for j := 0 to |list|
        invariant file == old(file) + EncodeAll(list[..j], components)
        invariant Emit(list[..j], components).error.Nothing?
      {
        ghost var before := file;
        var s := list[j];
        file := file + [|s.name| % 256];
        WriteName(s.name);
        EmitSnoc(list, j, components);
        var parts := GetComponents(s.value, components);
        if parts.Err? {
          Reassociate(before, [|s.name| % 256], NameBytes(s.name));
          Reassociate(old(file), EncodeAll(list[..j], components), Header(s));
          EmitStops(list, j + 1, components);
          return Some(parts.error);
        }
        file := file + [|parts.value| % 256];
        WriteBytes(parts.value);
        AppendRecord(before, [|s.name| % 256], NameBytes(s.name), [|parts.value| % 256], parts.value);
        Reassociate(old(file), EncodeAll(list[..j], components), EncodeScore(s, components));
      }
      assert list[..|list|] == list;
      error := Nothing;
    }

    /** ScoreIO.Write(score): appends its record, or its header and then the exception. */
    method WriteScore(s: Score) returns (error: Option<WriteError>)
      modifies this`file
      ensures file == old(file) + Piece(s, components).bytes
      ensures error == Piece(s, components).error
    {
      EmitOne(s, components);
      error := Write([s]);
    }

    /** ScoreIO.Write(name, value): writes that score. */
    method WriteNameValue(name: string, value: int32) returns (error: Option<WriteError>)
      modifies this`file
      ensures file == old(file) + Piece(Score(name, value), components).bytes
      ensures error == Piece(Score(name, value), components).error
    {
      error := WriteScore(Score(name, value));
    }

    /** LoadScores: the file's scores, sorted, become both the table and the scores known to be in the file. */
    method LoadScores() returns (r: Outcome<ReadError>)
      modifies this`scores, this`scoresInFile
      ensures match Loaded(file)
        case Ok(table) => r == Pass && scores == table && scoresInFile == table
        case Err(e) => r == Fail(e) && scores == old(scores) && scoresInFile == old(scoresInFile)
    {
      var read := Read();
      match read
      case Err(e) =>
        r := Fail(e);
      case Ok(xs) =>
        scores := SortDescending(xs);
        scoresInFile := scores;
        r := Pass;
    }

    /** The body of SaveScores for score s: written only when the file does not hold it. */
    method SaveScore(s: Score) returns (error: Option<WriteError>)
      modifies this`file
      ensures s in scoresInFile ==> file == old(file) && error == Nothing
      ensures s !in scoresInFile ==> file == old(file) + Piece(s, components).bytes && error == Piece(s, components).error
    {
      error := Nothing;
      if s !in scoresInFile {
        error := WriteScore(s);
      }
    }

    /**
     * SaveScores: appends the scores of the table not yet in the file, then
     * records the table as saved; an exception while writing ends it before
     * that record.
     */
    method SaveScores() returns (error: Option<WriteError>)
      modifies this`file, this`scoresInFile
      ensures var w := Emit(NotIn(scores, old(scoresInFile)), components);
        file == old(file) + w.bytes && error == w.error
        && scoresInFile == if w.error.Nothing? then scores else old(scoresInFile)
    {
      ghost var start, inFile := file, scoresInFile;
      for i := 0 to |scores|
        invariant scoresInFile == inFile
        invariant file == start + EncodeAll(NotIn(scores[..i], inFile), components)
        invariant Emit(NotIn(scores[..i], inFile), components).error.Nothing?
      {
        SaveStep(scores, i, inFile, components);
        error := SaveScore(scores[i]);
        if scores[i] !in inFile {
          Reassociate(start, EncodeAll(NotIn(scores[..i], inFile), components), Piece(scores[i], components).bytes);
        }
        if error.Some? {
          SaveStops(scores, i + 1, inFile, components);
          return;
        }
      }
      assert scores[..|scores|] == scores;
      scoresInFile := scores;
      error := Nothing;
    }

    /**
     * ReadHighScore(value) with the name the player entered: loads the
     * table if it is empty; a value above the last entry replaces it, under
     * the name padded to three characters, and the table is saved.
     */
    method ReadHighScore(value: int32, entered: string) returns (r: Outcome<TableError>)
      modifies this`file, this`scores, this`scoresInFile
      ensures var before := if |old(scores)| > 0 then Ok(old(scores)) else Loaded(old(file));
        match before
        case Err(e) =>
          r == Fail(Unreadable(e)) && file == old(file)
          && scores == old(scores) && scoresInFile == old(scoresInFile)
        case Ok(table) =>
          var inFile := if |old(scores)| > 0 then old(scoresInFile) else table;
          if |table| == 0 then
            r == Fail(NoScores) && file == old(file) && scores == table && scoresInFile == inFile
          else if IsHighScore(table, value) then
            var w := Emit(NotIn(scores, inFile), components);
            scores == Admit(table, Score(Pad(entered), value)) && file == old(file) + w.bytes
            && (w.error.Nothing? ==> r == Pass && scoresInFile == scores)
            && (w.error.Some? ==> r == Fail(Unwritable(w.error.value)) && scoresInFile == inFile)
          else
            r == Pass && file == old(file) && scores == table && scoresInFile == inFile
    {
      ghost var before := if |scores| > 0 then Ok(scores) else Loaded(file);
      if |scores| == 0 {
        var loaded := LoadScores();
        if loaded.Fail? {
          return Fail(Unreadable(loaded.error));
        }
      }
      ghost var table, inFile := scores, scoresInFile;
      assert before == Ok(table);
      if |scores| == 0 {
        return Fail(NoScores);
      }
      if value > scores[|scores| - 1].value {
        var s := Score(Pad(entered), value);
        scores := scores[..|scores| - 1];
        scores := scores + [s];
        scores := SortDescending(scores);
        assert scores == Admit(table, s);
        var error := SaveScores();
        if error.Some? {
          return Fail(Unwritable(error.value));
        }
      }
      r := Pass;
    }
  }

  /** Saving after loading from a file this program wrote leaves a file that reads back as the old scores and the new. */
  lemma SavedFileReadsBack(inFile: seq<Score>, table: seq<Score>, components: LengthRule)
    requires forall i :: 0 <= i < |inFile| ==> Encodable(inFile[i], components)
    requires forall i :: 0 <= i < |table| ==> Encodable(table[i], components)
    ensures Decode(EncodeAll(inFile, components) + EncodeAll(NotIn(table, inFile), components))
      == Ok(inFile + NotIn(table, inFile))
  {
    var added := NotIn(table, inFile);
    NotInMembers(table, inFile);
    EmitWritable(inFile, components);
    EmitAppend(inFile, added, components);
    forall i | 0 <= i < |inFile + added|
      ensures Encodable((inFile + added)[i], components)
    {
      if i >= |inFile| {
        assert (inFile + added)[i] in added;
      }
    }
    DecodeEncodeAll(inFile + added, components);
  }
}
