/** The Python dicts the patchers build while scanning a document: a dict from
    a key (a canonical heading, an abstract numbering id) to a position, filled
    in document order, so a key's value is its LAST position while the
    iteration order is the order in which keys FIRST appeared; and the
    exact-then-substring heading lookup over it. */
module OrderedDict {
  import opened Wrappers
  import opened Strings

  /** A dict as its items in iteration order. */
  type Index = seq<(string, nat)>

  predicate KeysUnique(m: Index) {
    forall i, j :: 0 <= i < j < |m| ==> m[i].0 != m[j].0
  }

  function Lookup(m: Index, k: string): (r: Option<nat>)
    ensures r.None? <==> forall i :: 0 <= i < |m| ==> m[i].0 != k
    ensures r.Some? ==> exists i :: 0 <= i < |m| && m[i] == (k, r.value)
  {
    if m == [] then None
    else if m[0].0 == k then Some(m[0].1)
    else Lookup(m[1..], k)
  }

  /** `d[k] = v`: overwrite in place when the key is present, append otherwise. */
  function Put(m: Index, k: string, v: nat): (r: Index)
  {
    if m == [] then [(k, v)]
    else if m[0].0 == k then [(k, v)] + m[1..]
    else [m[0]] + Put(m[1..], k, v)
  }

  /** Writing `k` makes it map to `v` and leaves every other key alone. */
  lemma {:induction false} PutLookup(m: Index, k: string, v: nat, k': string)
    ensures Lookup(Put(m, k, v), k') == if k' == k then Some(v) else Lookup(m, k')
  {
    if m != [] && m[0].0 != k {
      PutLookup(m[1..], k, v, k');
      assert Put(m, k, v)[1..] == Put(m[1..], k, v);
    } else if m != [] {
      assert Put(m, k, v)[1..] == m[1..];
    }
  }

  /** A present key is overwritten in place: the key order is unchanged. */
  lemma {:induction false} PutPresent(m: Index, k: string, v: nat)
    requires Lookup(m, k).Some?
    ensures |Put(m, k, v)| == |m|
    ensures forall i :: 0 <= i < |m| ==> Put(m, k, v)[i].0 == m[i].0
  {
    if m[0].0 != k {
      PutPresent(m[1..], k, v);
      assert Put(m, k, v)[1..] == Put(m[1..], k, v);
    }
  }

  /** An absent key is appended at the end. */
  lemma {:induction false} PutAbsent(m: Index, k: string, v: nat)
    requires Lookup(m, k).None?
    ensures Put(m, k, v) == m + [(k, v)]
  {
    if m != [] {
      PutAbsent(m[1..], k, v);
      assert m == [m[0]] + m[1..];
    }
  }

  lemma PutKeysUnique(m: Index, k: string, v: nat)
    requires KeysUnique(m)
    ensures KeysUnique(Put(m, k, v))
  {
    var r := Put(m, k, v);
    if Lookup(m, k).Some? {
      PutPresent(m, k, v);
      assert forall i :: 0 <= i < |r| ==> r[i].0 == m[i].0;
    } else {
      PutAbsent(m, k, v);
      forall i, j | 0 <= i < j < |r| ensures r[i].0 != r[j].0 {
        if j == |m| {
          assert r[i] == m[i];
        } else {
          assert r[i] == m[i] && r[j] == m[j];
        }
      }
    }
  }

  /** Fill the dict from (key, position) pairs in order: `for ...: d[key] = pos`. */
  function Build(pairs: seq<(string, nat)>): (m: Index)
    ensures KeysUnique(m)
  {
    if pairs == [] then []
    else
      var prev := Build(pairs[..|pairs| - 1]);
      PutKeysUnique(prev, pairs[|pairs| - 1].0, pairs[|pairs| - 1].1);
      Put(prev, pairs[|pairs| - 1].0, pairs[|pairs| - 1].1)
  }

  /** Reference: the position carried by the last pair with key `k`. */
  function LastWith(pairs: seq<(string, nat)>, k: string): Option<nat> {
    if pairs == [] then None
    else if pairs[|pairs| - 1].0 == k then Some(pairs[|pairs| - 1].1)
    else LastWith(pairs[..|pairs| - 1], k)
  }

  /** Later duplicates overwrite earlier ones: a key maps to its last position. */
  lemma {:induction false} BuildKeepsLast(pairs: seq<(string, nat)>, k: string)
    ensures Lookup(Build(pairs), k) == LastWith(pairs, k)
  {
    if pairs != [] {
      var prev := pairs[..|pairs| - 1];
      BuildKeepsLast(prev, k);
      PutLookup(Build(prev), pairs[|pairs| - 1].0, pairs[|pairs| - 1].1, k);
    }
  }

  /** The keys of the built dict are exactly the keys of the pairs. */
  lemma {:induction false} BuildKeys(pairs: seq<(string, nat)>, k: string)
    ensures Lookup(Build(pairs), k).Some? <==> exists j :: 0 <= j < |pairs| && pairs[j].0 == k
  {
    BuildKeepsLast(pairs, k);
    LastWithSome(pairs, k);
  }

  lemma {:induction false} LastWithSome(pairs: seq<(string, nat)>, k: string)
    ensures LastWith(pairs, k).Some? <==> exists j :: 0 <= j < |pairs| && pairs[j].0 == k
  {
    if pairs != [] {
      var prev := pairs[..|pairs| - 1];
      LastWithSome(prev, k);
      if pairs[|pairs| - 1].0 != k {
        if exists j :: 0 <= j < |pairs| && pairs[j].0 == k {
          var j :| 0 <= j < |pairs| && pairs[j].0 == k;
          assert prev[j].0 == k;
        }
      }
    }
  }

  /** Iteration order is first-appearance order: once a key is present, a later
      write keeps every key where it was. */
  lemma {:induction false} BuildGrowsAtEnd(pairs: seq<(string, nat)>, n: nat)
    requires n <= |pairs|
    ensures |Build(pairs[..n])| <= |Build(pairs)|
    ensures forall i :: 0 <= i < |Build(pairs[..n])| ==> Build(pairs)[i].0 == Build(pairs[..n])[i].0
    decreases |pairs| - n
  {
    if n < |pairs| {
      BuildGrowsAtEnd(pairs, n + 1);
      var a := pairs[..n + 1];
      assert a[..|a| - 1] == pairs[..n];
      var b := Build(pairs[..n]);
      if Lookup(b, pairs[n].0).Some? {
        PutPresent(b, pairs[n].0, pairs[n].1);
      } else {
        PutAbsent(b, pairs[n].0, pairs[n].1);
      }
    } else {
      assert pairs[..n] == pairs;
    }
  }

  lemma {:induction false} PutEntries(m: Index, k: string, v: nat)
    ensures forall e :: e in Put(m, k, v) ==> e in m || e == (k, v)
  {
    if m != [] && m[0].0 != k {
      PutEntries(m[1..], k, v);
    }
  }

  /** Every item of the built dict is one of the pairs it was built from. */
  lemma {:induction false} BuildEntries(pairs: seq<(string, nat)>)
    ensures forall e :: e in Build(pairs) ==> e in pairs
  {
    if pairs != [] {
      var prev := pairs[..|pairs| - 1];
      BuildEntries(prev);
      PutEntries(Build(prev), pairs[|pairs| - 1].0, pairs[|pairs| - 1].1);
    }
  }

  /** Whatever the lookup answers is the position of one of the pairs. */
  lemma FindFuzzyFromPairs(pairs: seq<(string, nat)>, target: string)
    requires FindFuzzy(Build(pairs), target).Some?
    ensures exists j :: 0 <= j < |pairs| && pairs[j].1 == FindFuzzy(Build(pairs), target).value
  {
    BuildEntries(pairs);
    var m := Build(pairs);
    var v := FindFuzzy(m, target).value;
    var i :| 0 <= i < |m| && m[i].1 == v;
    assert m[i] in pairs;
  }

  /** The writes a document scan performs: position `i` writes `keys[i]` when
      it has a key. */
  function PairsOf(keys: seq<Option<string>>): (r: seq<(string, nat)>)
    ensures forall j :: 0 <= j < |r| ==> r[j].1 < |keys| && keys[r[j].1] == Some(r[j].0)
    ensures forall i :: 0 <= i < |keys| && keys[i].Some? ==> (keys[i].value, i) in r
  {
    if keys == [] then []
    else
      var n := |keys| - 1;
      var prev := PairsOf(keys[..n]);
      assert forall i :: 0 <= i < n ==> keys[..n][i] == keys[i];
      if keys[n].Some? then prev + [(keys[n].value, n)] else prev
  }

  /** The last write of `k` is the last position whose key is `k`. */
  predicate IsLastKey(keys: seq<Option<string>>, k: string, i: nat) {
    i < |keys| && keys[i] == Some(k) && forall j :: i < j < |keys| ==> keys[j] != Some(k)
  }

  lemma {:induction false} PairsOfLast(keys: seq<Option<string>>, k: string)
    ensures LastWith(PairsOf(keys), k).Some? ==> IsLastKey(keys, k, LastWith(PairsOf(keys), k).value)
    ensures LastWith(PairsOf(keys), k).None? ==> forall i :: 0 <= i < |keys| ==> keys[i] != Some(k)
  {
    if keys != [] {
      var n := |keys| - 1;
      var pre := keys[..n];
      PairsOfLast(pre, k);
      var prev := PairsOf(pre);
      var last := LastWith(PairsOf(keys), k);
      if keys[n] == Some(k) {
        assert PairsOf(keys) == prev + [(k, n)];
        assert last == Some(n);
      } else {
        if keys[n].Some? {
          var all := prev + [(keys[n].value, n)];
          assert PairsOf(keys) == all;
          assert all[..|all| - 1] == prev;
        } else {
          assert PairsOf(keys) == prev;
        }
        assert last == LastWith(prev, k);
        if last.Some? {
          forall j | last.value < j < |keys| ensures keys[j] != Some(k) {
            if j < n { assert pre[j] == keys[j]; }
          }
          assert pre[last.value] == keys[last.value];
        } else {
          forall i | 0 <= i < |keys| ensures keys[i] != Some(k) {
            if i < n { assert pre[i] == keys[i]; }
          }
        }
      }
    }
  }

  /** When some position has exactly the target as key, the lookup over the
      scan's dict answers the LAST such position. */
  lemma FindFuzzyExact(keys: seq<Option<string>>, target: string, i: nat)
    requires i < |keys| && keys[i] == Some(target)
    ensures FindFuzzy(Build(PairsOf(keys)), target).Some?
    ensures IsLastKey(keys, target, FindFuzzy(Build(PairsOf(keys)), target).value)
  {
    BuildKeepsLast(PairsOf(keys), target);
    PairsOfLast(keys, target);
  }

  /** Whatever the lookup over the scan's dict answers is a position with a key. */
  lemma FindFuzzyHasKey(keys: seq<Option<string>>, target: string)
    requires FindFuzzy(Build(PairsOf(keys)), target).Some?
    ensures FindFuzzy(Build(PairsOf(keys)), target).value < |keys|
    ensures keys[FindFuzzy(Build(PairsOf(keys)), target).value].Some?
  {
    FindFuzzyFromPairs(PairsOf(keys), target);
  }

  /** Writing a key the dict does not hold appends it. */
  lemma BuildSnocAbsent(pairs: seq<(string, nat)>, k: string, v: nat)
    requires forall j :: 0 <= j < |pairs| ==> pairs[j].0 != k
    ensures Build(pairs + [(k, v)]) == Build(pairs) + [(k, v)]
  {
    var all := pairs + [(k, v)];
    assert all[..|all| - 1] == pairs;
    BuildKeys(pairs, k);
    PutAbsent(Build(pairs), k, v);
  }

  /** `target in k or k in target`. */
  predicate Overlaps(k: string, target: string) {
    Contains(k, target) || Contains(target, k)
  }

  /** Exact key first; otherwise the first key in iteration order that contains,
      or is contained in, the target; otherwise nothing. */
  function FindFuzzy(m: Index, target: string): (r: Option<nat>)
    ensures Lookup(m, target).Some? ==> r == Lookup(m, target)
    ensures Lookup(m, target).None? && r.Some? ==>
      exists i :: 0 <= i < |m| && m[i].1 == r.value && Overlaps(m[i].0, target) &&
        forall j :: 0 <= j < i ==> !Overlaps(m[j].0, target)
    ensures r.None? <==> Lookup(m, target).None? && forall i :: 0 <= i < |m| ==> !Overlaps(m[i].0, target)
  {
    match Lookup(m, target)
    case Some(v) => Some(v)
    case None => FirstOverlap(m, target)
  }

  function FirstOverlap(m: Index, target: string): (r: Option<nat>)
    ensures r.Some? ==>
      exists i :: 0 <= i < |m| && m[i].1 == r.value && Overlaps(m[i].0, target) &&
        forall j :: 0 <= j < i ==> !Overlaps(m[j].0, target)
    ensures r.None? <==> forall i :: 0 <= i < |m| ==> !Overlaps(m[i].0, target)
  {
    if m == [] then None
    else if Overlaps(m[0].0, target) then Some(m[0].1)
    else
      var r := FirstOverlap(m[1..], target);
      if r.Some? then
        var i :| 0 <= i < |m[1..]| && m[1..][i].1 == r.value && Overlaps(m[1..][i].0, target) &&
          forall j :: 0 <= j < i ==> !Overlaps(m[1..][j].0, target);
        assert m[i + 1] == m[1..][i];
        assert forall j :: 0 <= j < i + 1 ==> !Overlaps(m[j].0, target) by {
          forall j | 0 <= j < i + 1 ensures !Overlaps(m[j].0, target) {
            if j > 0 { assert m[j] == m[1..][j - 1]; }
          }
        }
        r
      else
        assert forall i :: 0 <= i < |m| ==> !Overlaps(m[i].0, target) by {
          forall i | 0 <= i < |m| ensures !Overlaps(m[i].0, target) {
            if i > 0 { assert m[i] == m[1..][i - 1]; }
          }
        }
        r
  }

  /** The empty key overlaps every target, so a dict holding it answers every
      inexact lookup from the first overlapping key on. */
  lemma EmptyKeyOverlaps(target: string)
    ensures Overlaps([], target)
  {
    assert OccursAt(target, [], 0);
  }
}
