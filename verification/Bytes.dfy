/** Bytes, optional values and flattening, shared by the other modules. */
module Bytes {
  type byte = x: int | 0 <= x < 256

  datatype Option<+T> = None | Some(value: T)

  /** The concatenation of a list of sequences. */
  function Flatten<T>(parts: seq<seq<T>>): seq<T> {
    if parts == [] then [] else parts[0] + Flatten(parts[1..])
  }

  lemma FlattenCons<T>(x: seq<T>, xs: seq<seq<T>>)
    ensures Flatten([x] + xs) == x + Flatten(xs)
  {
    assert ([x] + xs)[1..] == xs;
  }

  lemma Reassociate<T>(a: seq<T>, b: seq<T>, c: seq<T>)
    ensures (a + b) + c == a + (b + c)
  {}

  lemma {:induction false} FlattenAppend<T>(xs: seq<seq<T>>, ys: seq<seq<T>>)
    ensures Flatten(xs + ys) == Flatten(xs) + Flatten(ys)
  {
    if xs == [] {
      assert xs + ys == ys;
    } else {
      FlattenAppend(xs[1..], ys);
      assert (xs + ys)[0] == xs[0] && (xs + ys)[1..] == xs[1..] + ys;
      Reassociate(xs[0], Flatten(xs[1..]), Flatten(ys));
    }
  }

  lemma FlattenNone<T>()
    ensures Flatten<T>([]) == []
  {}

  lemma FlattenSingle<T>(x: seq<T>)
    ensures Flatten([x]) == x
  {
    assert Flatten([x]) == x + Flatten([]);
  }

  lemma FlattenSnoc<T>(xs: seq<seq<T>>, y: seq<T>)
    ensures Flatten(xs + [y]) == Flatten(xs) + y
  {
    FlattenAppend(xs, [y]);
    FlattenSingle(y);
  }

  // ----- numbers

  /** The number that bytes stand for, the most significant one first. */
  function BigEndian(s: seq<byte>): nat {
    if s == [] then 0 else BigEndian(s[..|s| - 1]) * 256 + s[|s| - 1]
  }

  /** The fewest bytes that stand for a number, the most significant one first. */
  function Octets(n: nat): seq<byte> {
    if n < 256 then [n] else Octets(n / 256) + [n % 256]
  }

  lemma {:induction false} BigEndianOctets(n: nat)
    ensures BigEndian(Octets(n)) == n
  {
    if n < 256 {
      assert BigEndian([n]) == BigEndian([]) * 256 + n;
    } else {
      var high := Octets(n / 256);
      BigEndianOctets(n / 256);
      assert (high + [n % 256])[..|high|] == high;
    }
  }

  /** They do not start with zero, and there is one for a number below 256. */
  lemma {:induction false} OctetsFewest(n: nat)
    ensures |Octets(n)| >= 1 && (|Octets(n)| == 1 <==> n < 256)
    ensures n > 0 ==> Octets(n)[0] != 0
    ensures |Octets(n)| == 1 ==> Octets(n) == [n]
  {
    if n >= 256 {
      OctetsFewest(n / 256);
    }
  }

  lemma {:induction false} OctetsOfBigEndian(s: seq<byte>)
    requires s != [] && s[0] != 0
    ensures Octets(BigEndian(s)) == s && BigEndian(s) > 0
  {
    var high, low := s[..|s| - 1], s[|s| - 1];
    if high == [] {
      assert BigEndian([]) == 0 && s == [low];
    } else {
      OctetsOfBigEndian(high);
      assert BigEndian(s) / 256 == BigEndian(high) && BigEndian(s) % 256 == low;
      assert s == high + [low];
    }
  }
}
