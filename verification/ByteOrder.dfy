// Byte strings in the order std::string compares them, and std::map with such
// keys as a list of entries in strictly ascending key order.
module ByteOrder {
  import opened Bytes

  predicate Less(a: seq<byte>, b: seq<byte>) {
    if b == [] then false
    else if a == [] then true
    else if a[0] != b[0] then a[0] < b[0]
    else Less(a[1..], b[1..])
  }

  /** At k the strings part: there a ends, or has the smaller byte. */
  ghost predicate LessAt(a: seq<byte>, b: seq<byte>, k: nat) {
    && k <= |a| && k < |b| && a[..k] == b[..k]
    && (k < |a| ==> a[k] < b[k])
  }

  lemma PartsInFront(a: seq<byte>, b: seq<byte>, k: nat)
    ensures LessAt(a, b, k) ==> b != [] && (a == [] || a[0] <= b[0])
  {
    if LessAt(a, b, k) && k > 0 {
      assert a[..k][0] == b[..k][0];
    }
  }

  /** The order is that of a dictionary. */
  lemma {:induction false} LessIff(a: seq<byte>, b: seq<byte>)
    ensures Less(a, b) <==> exists k: nat :: LessAt(a, b, k)
    decreases |a|
  {
    if a != [] && b != [] && a[0] == b[0] {
      LessIff(a[1..], b[1..]);
      assert a == [a[0]] + a[1..] && b == [b[0]] + b[1..];
      if k: nat :| LessAt(a[1..], b[1..], k) {
        assert a[..k + 1] == [a[0]] + a[1..][..k] && b[..k + 1] == [b[0]] + b[1..][..k];
        assert LessAt(a, b, k + 1);
      }
      if k: nat :| LessAt(a, b, k) {
        assert k > 0;
        assert a[1..][..k - 1] == a[..k][1..] && b[1..][..k - 1] == b[..k][1..];
        assert LessAt(a[1..], b[1..], k - 1);
      }
    } else if b != [] && (a == [] || a[0] < b[0]) {
      assert LessAt(a, b, 0);
    } else {
      forall k: nat
        ensures !LessAt(a, b, k)
      {
        PartsInFront(a, b, k);
      }
    }
  }

  lemma {:induction false} LessIsIrreflexive(a: seq<byte>)
    ensures !Less(a, a)
  {
    if a != [] {
      LessIsIrreflexive(a[1..]);
    }
  }

  lemma {:induction false} LessIsTransitive(a: seq<byte>, b: seq<byte>, c: seq<byte>)
    requires Less(a, b) && Less(b, c)
    ensures Less(a, c)
    decreases |a|
  {
    if a != [] && a[0] == b[0] == c[0] {
      LessIsTransitive(a[1..], b[1..], c[1..]);
    }
  }

  lemma {:induction false} LessIsTotal(a: seq<byte>, b: seq<byte>)
    ensures a == b || Less(a, b) || Less(b, a)
    decreases |a|
  {
    if a != [] && b != [] && a[0] == b[0] {
      LessIsTotal(a[1..], b[1..]);
      assert a == [a[0]] + a[1..] && b == [b[0]] + b[1..];
    }
  }

  lemma {:induction false} LessIsAsymmetric(a: seq<byte>, b: seq<byte>)
    requires Less(a, b)
    ensures !Less(b, a) && a != b
  {
    LessIsIrreflexive(a);
    if Less(b, a) {
      LessIsTransitive(a, b, a);
    }
  }

  type Dict<V> = seq<(seq<byte>, V)>

  ghost predicate SortedKeys<V>(d: Dict<V>) {
    forall i, j | 0 <= i < j < |d| :: Less(d[i].0, d[j].0)
  }

  /** std::map::emplace: an entry already there is kept. */
  function Emplace<V>(d: Dict<V>, key: seq<byte>, value: V): Dict<V> {
    if d == [] || Less(key, d[0].0) then [(key, value)] + d
    else if d[0].0 == key then d
    else [d[0]] + Emplace(d[1..], key, value)
  }

  /** A key above all others goes to the end. */
  lemma {:induction false} AppendsGreatest<V>(d: Dict<V>, key: seq<byte>, value: V)
    requires forall i | 0 <= i < |d| :: Less(d[i].0, key)
    ensures Emplace(d, key, value) == d + [(key, value)]
  {
    if d != [] {
      LessIsAsymmetric(d[0].0, key);
      AppendsGreatest(d[1..], key, value);
      assert d + [(key, value)] == [d[0]] + (d[1..] + [(key, value)]);
    }
  }
}
