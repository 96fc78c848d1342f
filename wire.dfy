/**
 * Byte-level building blocks shared by every codec of the server: octets,
 * big-endian 16- and 32-bit words as Node's Buffer writes and reads them
 * (writeUInt16BE / readUInt16BE / writeUInt32BE / readUInt32BE), the
 * concatenation of a list of buffers (Buffer.concat), and the Option and
 * Result wrappers that stand in for JavaScript's exceptions.
 */
module Wire {

  type byte = b: int | 0 <= b < 0x100
  type u16 = x: int | 0 <= x < 0x1_0000
  type u32 = x: int | 0 <= x < 0x1_0000_0000

  datatype Option<+T> = None | Some(value: T)

  datatype Result<+T, +E> = Success(value: T) | Failure(error: E)

  /** writeUInt16BE: the high octet first. */
  function U16(x: u16): (r: seq<byte>)
    ensures |r| == 2
  {
    [x / 0x100, x % 0x100]
  }

  /** readUInt16BE at offset i. */
  function ReadU16(s: seq<byte>, i: nat): (r: u16)
    requires i + 2 <= |s|
  {
    s[i] as int * 0x100 + s[i + 1] as int
  }

  /** writeUInt32BE: four octets, most significant first. */
  function U32(x: u32): (r: seq<byte>)
    ensures |r| == 4
  {
    [x / 0x100_0000, (x / 0x1_0000) % 0x100, (x / 0x100) % 0x100, x % 0x100]
  }

  /** readUInt32BE at offset i. */
  function ReadU32(s: seq<byte>, i: nat): (r: u32)
    requires i + 4 <= |s|
  {
    ((s[i] as int * 0x100 + s[i + 1] as int) * 0x100 + s[i + 2] as int) * 0x100 + s[i + 3] as int
  }

  lemma ReadU16OfU16(x: u16, s: seq<byte>, i: nat)
    requires i + 2 <= |s| && s[i..i + 2] == U16(x)
    ensures ReadU16(s, i) == x
  {
    assert s[i] == U16(x)[0] && s[i + 1] == U16(x)[1];
  }

  lemma U16OfReadU16(s: seq<byte>, i: nat)
    requires i + 2 <= |s|
    ensures U16(ReadU16(s, i)) == s[i..i + 2]
  {
  }

  lemma ReadU32OfU32(x: u32, s: seq<byte>, i: nat)
    requires i + 4 <= |s| && s[i..i + 4] == U32(x)
    ensures ReadU32(s, i) == x
  {
    var q1 := x / 0x100;
    var q2 := q1 / 0x100;
    DivDiv(x, 0x100, 0x100);
    DivDiv(x, 0x1_0000, 0x100);
    assert x / 0x1_0000 == q2;
    assert x / 0x100_0000 == q2 / 0x100;
    assert s[i] == q2 / 0x100 && s[i + 1] == q2 % 0x100 by {
      assert s[i] == U32(x)[0] && s[i + 1] == U32(x)[1];
    }
    assert s[i + 2] == q1 % 0x100 && s[i + 3] == x % 0x100 by {
      assert s[i + 2] == U32(x)[2] && s[i + 3] == U32(x)[3];
    }
    assert s[i] as int * 0x100 + s[i + 1] as int == q2;
    assert q2 * 0x100 + s[i + 2] as int == q1;
  }

  /** Buffer.concat over a list of buffers. */
  function Concat(parts: seq<seq<byte>>): (r: seq<byte>)
  {
    if parts == [] then [] else parts[0] + Concat(parts[1..])
  }

  /** A piece of a slice is the matching slice of the whole. */
  lemma SliceWithin(s: seq<byte>, off: nat, t: seq<byte>, i: nat, j: nat)
    requires off + |t| <= |s| && s[off..off + |t|] == t && i <= j <= |t|
    ensures s[off + i..off + j] == t[i..j]
  {
    forall k | 0 <= k < j - i
      ensures s[off + i..off + j][k] == t[i..j][k]
    {
      assert s[off + i + k] == s[off..off + |t|][i + k];
    }
  }

  lemma Assoc(a: seq<byte>, b: seq<byte>, c: seq<byte>)
    ensures a + (b + c) == a + b + c
  {
  }

  /** A word reads the same after a prefix is put in front of it. */
  lemma ReadU32Shift(prefix: seq<byte>, t: seq<byte>, i: nat)
    requires i + 4 <= |t|
    ensures ReadU32(prefix + t, |prefix| + i) == ReadU32(t, i)
  {
    var s, o := prefix + t, |prefix| + i;
    assert s[o] == t[i] && s[o + 1] == t[i + 1] && s[o + 2] == t[i + 2] && s[o + 3] == t[i + 3];
  }

  lemma Slices3(a: seq<byte>, b: seq<byte>, c: seq<byte>)
    ensures (a + b + c)[..|a|] == a && (a + b + c)[|a|..|a| + |b|] == b
  {
  }

  lemma TakeAll<T>(s: seq<T>)
    ensures s[..|s|] == s
  {
  }

  lemma TakeSnoc<T>(s: seq<T>, k: nat)
    requires k < |s|
    ensures s[..k] + [s[k]] == s[..k + 1]
  {
  }

  /** t sits in s from offset i, octet by octet. */
  predicate At(s: seq<byte>, i: nat, t: seq<byte>)
    decreases |t|
  {
    if t == [] then i <= |s| else i < |s| && s[i] == t[0] && At(s, i + 1, t[1..])
  }

  lemma {:induction false} AtSlice(s: seq<byte>, i: nat, t: seq<byte>)
    ensures At(s, i, t) <==> i + |t| <= |s| && s[i..i + |t|] == t
    decreases |t|
  {
    if t != [] {
      AtSlice(s, i + 1, t[1..]);
      if i + |t| <= |s| {
        assert s[i..i + |t|] == [s[i]] + s[i + 1..i + |t|];
        assert t == [t[0]] + t[1..];
      }
    }
  }

  lemma AtSplit(s: seq<byte>, i: nat, a: seq<byte>, b: seq<byte>)
    requires At(s, i, a + b)
    ensures At(s, i, a) && At(s, i + |a|, b)
  {
    AtSlice(s, i, a + b);
    AtSlice(s, i, a);
    AtSlice(s, i + |a|, b);
    SliceWithin(s, i, a + b, 0, |a|);
    SliceWithin(s, i, a + b, |a|, |a| + |b|);
    assert (a + b)[..|a|] == a;
    assert (a + b)[|a|..|a| + |b|] == b;
  }

  lemma AtMiddle(pre: seq<byte>, t: seq<byte>, post: seq<byte>)
    ensures At(pre + t + post, |pre|, t)
  {
    AtSlice(pre + t + post, |pre|, t);
    assert (pre + t + post)[|pre|..|pre| + |t|] == t;
  }

  function TotalLength(parts: seq<seq<byte>>): nat
  {
    if parts == [] then 0 else |parts[0]| + TotalLength(parts[1..])
  }

  lemma {:induction false} ConcatLength(parts: seq<seq<byte>>)
    ensures |Concat(parts)| == TotalLength(parts)
  {
    if parts != [] {
      ConcatLength(parts[1..]);
    }
  }

  lemma {:induction false} ConcatAppend(a: seq<seq<byte>>, b: seq<seq<byte>>)
    ensures Concat(a + b) == Concat(a) + Concat(b)
  {
    if a == [] {
      assert a + b == b;
    } else {
      assert (a + b)[1..] == a[1..] + b;
      ConcatAppend(a[1..], b);
    }
  }

  lemma ConcatPush(a: seq<seq<byte>>, x: seq<byte>)
    ensures Concat(a + [x]) == Concat(a) + x
  {
    ConcatAppend(a, [x]);
    assert Concat([x]) == x + Concat([]);
  }

  /** One more buffer concatenated onto a message that ends in a run of buffers. */
  lemma ConcatGrow(front: seq<byte>, parts: seq<seq<byte>>, x: seq<byte>, message: seq<byte>)
    requires message == front + Concat(parts)
    ensures Concat([message, x]) == front + Concat(parts + [x])
  {
    ConcatPush(parts, x);
    Concat2(message, x);
  }

  lemma Concat2(a: seq<byte>, b: seq<byte>)
    ensures Concat([a, b]) == a + b
  {
    assert [a, b][1..] == [b];
    assert Concat([b]) == b + Concat([]);
  }

  lemma Concat3(a: seq<byte>, b: seq<byte>, c: seq<byte>)
    ensures Concat([a, b, c]) == a + b + c
  {
    assert [a, b, c][1..] == [b, c];
    Concat2(b, c);
  }

  // Runs of steps that may throw: the first failing step aborts the rest.

  /** The results of the first n steps in order, or the failure of the first step that fails. */
  function Collect<T, E>(rs: seq<Result<T, E>>, n: nat): (r: Result<seq<T>, E>)
    requires n <= |rs|
    ensures r.Success? ==> |r.value| == n
  {
    if n == 0 then Success([])
    else
      match Collect(rs, n - 1)
      case Failure(e) => Failure(e)
      case Success(acc) =>
        match rs[n - 1]
        case Failure(e) => Failure(e)
        case Success(x) => Success(acc + [x])
  }

  /** The results of the first n steps, each a list, joined in order; or the first failure. */
  function Gather<T, E>(rs: seq<Result<seq<T>, E>>, n: nat): (r: Result<seq<T>, E>)
    requires n <= |rs|
  {
    if n == 0 then Success([])
    else
      match Gather(rs, n - 1)
      case Failure(e) => Failure(e)
      case Success(acc) =>
        match rs[n - 1]
        case Failure(e) => Failure(e)
        case Success(xs) => Success(acc + xs)
  }

  /** Once a step fails, every longer run fails the same way. */
  lemma {:induction false} CollectFailStays<T, E>(rs: seq<Result<T, E>>, i: nat, n: nat)
    requires i <= n <= |rs| && Collect(rs, i).Failure?
    ensures Collect(rs, n) == Collect(rs, i)
    decreases n
  {
    if n > i {
      CollectFailStays(rs, i, n - 1);
    }
  }

  /** A run succeeds exactly when each of its steps does. */
  lemma {:induction false} CollectSucceeds<T, E>(rs: seq<Result<T, E>>, n: nat)
    requires n <= |rs|
    ensures Collect(rs, n).Success? <==> forall j :: 0 <= j < n ==> rs[j].Success?
  {
    if n > 0 {
      CollectSucceeds(rs, n - 1);
    }
  }

  /** Result k of a successful run is the result of step k. */
  lemma {:induction false} CollectInOrder<T, E>(rs: seq<Result<T, E>>, n: nat, k: nat)
    requires n <= |rs| && Collect(rs, n).Success? && k < n
    ensures rs[k] == Success(Collect(rs, n).value[k])
  {
    if k < n - 1 {
      CollectInOrder(rs, n - 1, k);
    }
  }

  /** The first failing step decides the outcome of the whole run. */
  lemma CollectFirstFailure<T, E>(rs: seq<Result<T, E>>, i: nat)
    requires i < |rs| && rs[i].Failure?
    requires forall j :: 0 <= j < i ==> rs[j].Success?
    ensures Collect(rs, |rs|) == Failure(rs[i].error)
  {
    CollectSucceeds(rs, i);
    CollectFailStays(rs, i + 1, |rs|);
  }

  /** A run fails only with an error some step may fail with. */
  lemma {:induction false} CollectErrors<T, E>(rs: seq<Result<T, E>>, n: nat, errors: set<E>)
    requires n <= |rs| && Collect(rs, n).Failure?
    requires forall k :: 0 <= k < n && rs[k].Failure? ==> rs[k].error in errors
    ensures Collect(rs, n).error in errors
  {
    if Collect(rs, n - 1).Failure? {
      CollectErrors(rs, n - 1, errors);
    }
  }

  lemma {:induction false} GatherFailStays<T, E>(rs: seq<Result<seq<T>, E>>, i: nat, n: nat)
    requires i <= n <= |rs| && Gather(rs, i).Failure?
    ensures Gather(rs, n) == Gather(rs, i)
    decreases n
  {
    if n > i {
      GatherFailStays(rs, i, n - 1);
    }
  }

  lemma {:induction false} GatherSucceeds<T, E>(rs: seq<Result<seq<T>, E>>, n: nat)
    requires n <= |rs|
    ensures Gather(rs, n).Success? <==> forall j :: 0 <= j < n ==> rs[j].Success?
  {
    if n > 0 {
      GatherSucceeds(rs, n - 1);
    }
  }

  /** A failing step after a successful run aborts the whole run with its error. */
  lemma GatherAborts<T, E>(rs: seq<Result<seq<T>, E>>, i: nat)
    requires i < |rs| && Gather(rs, i).Success? && rs[i].Failure?
    ensures Gather(rs, |rs|) == Failure(rs[i].error)
  {
    GatherFailStays(rs, i + 1, |rs|);
  }

  lemma GatherFirstFailure<T, E>(rs: seq<Result<seq<T>, E>>, i: nat)
    requires i < |rs| && rs[i].Failure?
    requires forall j :: 0 <= j < i ==> rs[j].Success?
    ensures Gather(rs, |rs|) == Failure(rs[i].error)
  {
    GatherSucceeds(rs, i);
    GatherFailStays(rs, i + 1, |rs|);
  }

  /** The sum of the first n counts. */
  function Sum(counts: seq<nat>, n: nat): nat
    requires n <= |counts|
  {
    if n == 0 then 0 else Sum(counts, n - 1) + counts[n - 1]
  }

  /** A successful run joins as many results as its steps' counts add up to. */
  lemma {:induction false} GatherLength<T, E>(rs: seq<Result<seq<T>, E>>, counts: seq<nat>, n: nat)
    requires n <= |rs| && |counts| == |rs| && Gather(rs, n).Success?
    requires forall k :: 0 <= k < |rs| && rs[k].Success? ==> |rs[k].value| == counts[k]
    ensures |Gather(rs, n).value| == Sum(counts, n)
  {
    if n > 0 {
      GatherLength(rs, counts, n - 1);
    }
  }

  /** A sequence of n zero octets (what Buffer.alloc leaves unwritten). */
  function Zeros(n: nat): (r: seq<byte>)
    ensures |r| == n && forall k :: 0 <= k < n ==> r[k] == 0
  {
    seq(n, _ => 0)
  }

  // Arithmetic facts behind the shift-and-mask reasoning of the header codec.

  lemma MulAtLeast(a: int, d: int)
    requires a >= 1 && d > 0
    ensures a * d >= d
  {
  }

  /** Euclidean division is unique: n == q * d + r with 0 <= r < d fixes both. */
  lemma DivMod(n: int, d: int, q: int, r: int)
    requires 0 < d && 0 <= r < d && n == q * d + r
    ensures n / d == q && n % d == r
  {
    var q', r' := n / d, n % d;
    assert (q - q') * d == r' - r;
    if q' < q {
      MulAtLeast(q - q', d);
    } else if q' > q {
      MulAtLeast(q' - q, d);
    }
  }

  lemma DivDiv(n: nat, a: nat, b: nat)
    requires a > 0 && b > 0
    ensures n / a / b == n / (a * b)
  {
    var q := n / a;
    var r1 := n % a;
    var q2 := q / b;
    var r2 := q % b;
    assert n == a * (b * q2 + r2) + r1;
    assert n == (a * b) * q2 + (a * r2 + r1);
    assert a * r2 + r1 < a * b by {
      MulAtLeast(b - r2, a);
      assert a * b - a * r2 == (b - r2) * a;
    }
    DivMod(n, a * b, q2, a * r2 + r1);
  }

  /** A field of width m stored at scale d is recovered by (n / d) % m. */
  lemma FieldAt(n: int, d: int, m: int, hi: int, field: int, lo: int)
    requires 0 < d && 0 < m && 0 <= lo < d && 0 <= field < m
    requires n == (hi * m + field) * d + lo
    ensures (n / d) % m == field
  {
    DivMod(n, d, hi * m + field, lo);
    DivMod(hi * m + field, m, hi, field);
  }
}
