/** A table of the wide-column store, as an association list: a sequence of
    rows, each identified by its primary key `key(row)`. Saving a row whose
    key is present overwrites that row in place; deleting removes the row with
    the key. The order of the list stands for the store's clustering order,
    which the model does not fix: the properties below are about keys and
    membership, not positions. */
module Tables {
  import opened Wrappers

  /** No two rows share a primary key. */
  predicate UniqueKeys<R, K(==)>(t: seq<R>, key: R -> K) {
    forall i, j :: 0 <= i < j < |t| ==> key(t[i]) != key(t[j])
  }

  /** A read by primary key. */
  function Get<R, K(==)>(t: seq<R>, key: R -> K, k: K): (r: Option<R>)
    ensures r.Some? ==> r.value in t && key(r.value) == k
    ensures r.None? <==> forall i :: 0 <= i < |t| ==> key(t[i]) != k
  {
    if t == [] then None
    else if key(t[0]) == k then Some(t[0])
    else
      var r := Get(t[1..], key, k);
      assert forall i :: 1 <= i < |t| ==> t[i] == t[1..][i - 1];
      r
  }

  /** Overwrites, in place, every row whose key is that of `row`. */
  function Replace<R, K(==)>(t: seq<R>, key: R -> K, row: R): (t': seq<R>)
    ensures |t'| == |t|
    ensures forall i :: 0 <= i < |t| ==> key(t'[i]) == key(t[i])
    ensures forall i :: 0 <= i < |t| ==> t'[i] == if key(t[i]) == key(row) then row else t[i]
  {
    if t == [] then []
    else [if key(t[0]) == key(row) then row else t[0]] + Replace(t[1..], key, row)
  }

  /** An upsert (`mapper.saveQuery`): the row is stored under its key,
      replacing what was there. */
  function Upsert<R(!new), K(==,!new)>(t: seq<R>, key: R -> K, row: R): (t': seq<R>)
    ensures Get(t', key, key(row)) == Some(row)
    ensures forall k :: k != key(row) ==> Get(t', key, k) == Get(t, key, k)
    ensures forall x :: x in t' <==> x == row || (x in t && key(x) != key(row))
    ensures UniqueKeys(t, key) ==> UniqueKeys(t', key)
  {
    if Get(t, key, key(row)).Some? then
      var t' := Replace(t, key, row);
      assert forall k :: k != key(row) ==> Get(t', key, k) == Get(t, key, k) by {
        forall k | k != key(row) ensures Get(t', key, k) == Get(t, key, k) {
          GetUnderSameKeys(t, t', key, k);
        }
      }
      assert forall x :: x in t' <==> x == row || (x in t && key(x) != key(row)) by {
        forall x ensures x in t' <==> x == row || (x in t && key(x) != key(row)) {
          if x == row {
            var i :| 0 <= i < |t| && key(t[i]) == key(row);
            assert t'[i] == row;
          }
          if x in t && key(x) != key(row) {
            var i :| 0 <= i < |t| && t[i] == x;
            assert t'[i] == x;
          }
        }
      }
      GetReplace(t, key, row);
      t'
    else
      var t' := t + [row];
      assert forall i :: 0 <= i < |t| ==> t'[i] == t[i];
      assert forall k :: k != key(row) ==> Get(t', key, k) == Get(t, key, k) by {
        forall k | k != key(row) ensures Get(t', key, k) == Get(t, key, k) {
          GetAppend(t, key, row, k);
        }
      }
      GetAppend(t, key, row, key(row));
      t'
  }

  /** Upserting a row that satisfies `p` into a table with unique keys where
      no row does leaves the row at one position and no other position
      satisfying `p`. */
  lemma UpsertOnlyRow<R(!new), K(!new)>(t: seq<R>, key: R -> K, row: R, p: R -> bool)
    requires UniqueKeys(t, key)
    requires p(row)
    requires forall x | x in t :: !p(x)
    ensures var t' := Upsert(t, key, row);
      exists i :: 0 <= i < |t'| && t'[i] == row && forall j :: 0 <= j < |t'| && p(t'[j]) ==> j == i
  {
    var t' := Upsert(t, key, row);
    assert row in t';
    var i :| 0 <= i < |t'| && t'[i] == row;
    forall j | 0 <= j < |t'| && p(t'[j]) ensures j == i {
      assert t'[j] in t';
    }
  }

  /** A delete by primary key (`mapper.deleteQuery`); a missing key is a no-op. */
  function Delete<R(!new), K(==,!new)>(t: seq<R>, key: R -> K, k: K): (t': seq<R>)
    ensures Get(t', key, k) == None
    ensures forall k' :: k' != k ==> Get(t', key, k') == Get(t, key, k')
    ensures forall x :: x in t' <==> x in t && key(x) != k
    ensures UniqueKeys(t, key) ==> UniqueKeys(t', key)
    ensures Get(t, key, k) == None ==> t' == t
  {
    if t == [] then []
    else
      var rest := Delete(t[1..], key, k);
      if key(t[0]) == k then
        DeleteStepDrop(t, key, k, rest);
        rest
      else
        DeleteStepKeep(t, key, k, rest);
        [t[0]] + rest
  }

  /** What a delete of key `k` leaves: the rows under other keys, read alike,
      and nothing under `k`. */
  ghost predicate DeleteSpec<R(!new), K(!new)>(t: seq<R>, key: R -> K, k: K, t': seq<R>) {
    && Get(t', key, k) == None
    && (forall k' :: k' != k ==> Get(t', key, k') == Get(t, key, k'))
    && (forall x :: x in t' <==> x in t && key(x) != k)
    && (UniqueKeys(t, key) ==> UniqueKeys(t', key))
    && (Get(t, key, k) == None ==> t' == t)
  }

  /** A delete that drops the first row. */
  lemma DeleteStepDrop<R(!new), K(!new)>(t: seq<R>, key: R -> K, k: K, rest: seq<R>)
    requires t != [] && key(t[0]) == k
    requires DeleteSpec(t[1..], key, k, rest)
    ensures DeleteSpec(t, key, k, rest)
  {
    assert t == [t[0]] + t[1..];
    UniqueKeysTail(t, key);
  }

  /** A delete that keeps the first row. */
  lemma DeleteStepKeep<R(!new), K(!new)>(t: seq<R>, key: R -> K, k: K, rest: seq<R>)
    requires t != [] && key(t[0]) != k
    requires DeleteSpec(t[1..], key, k, rest)
    ensures DeleteSpec(t, key, k, [t[0]] + rest)
  {
    var t' := [t[0]] + rest;
    assert t'[0] == t[0] && t'[1..] == rest;
    forall k' | k' != k ensures Get(t', key, k') == Get(t, key, k') {
      if key(t[0]) != k' {
        assert Get(t', key, k') == Get(rest, key, k');
        assert Get(t, key, k') == Get(t[1..], key, k');
      }
    }
    if Get(t, key, k) == None {
      assert Get(t[1..], key, k) == None;
      assert t == [t[0]] + t[1..];
    }
    UniqueKeysTail(t, key);
    UniqueKeysCons(t[0], rest, key);
  }

  /** The rows after the first of a table with unique keys have unique keys,
      none of them the first row's. */
  lemma UniqueKeysTail<R, K>(t: seq<R>, key: R -> K)
    requires t != []
    ensures UniqueKeys(t, key) ==>
              && UniqueKeys(t[1..], key)
              && forall x | x in t[1..] :: key(x) != key(t[0])
  {
    if UniqueKeys(t, key) {
      forall i, j | 0 <= i < j < |t[1..]| ensures key(t[1..][i]) != key(t[1..][j]) {
        assert t[1..][i] == t[i + 1] && t[1..][j] == t[j + 1];
      }
      forall x | x in t[1..] ensures key(x) != key(t[0]) {
        var m :| 0 <= m < |t[1..]| && t[1..][m] == x;
        assert t[m + 1] == x;
      }
    }
  }

  /** Putting a row in front of a table with unique keys, none of them its
      own, keeps the keys unique. */
  lemma UniqueKeysCons<R, K>(x: R, rest: seq<R>, key: R -> K)
    ensures UniqueKeys(rest, key) && (forall y | y in rest :: key(y) != key(x)) ==> UniqueKeys([x] + rest, key)
  {
    if UniqueKeys(rest, key) && (forall y | y in rest :: key(y) != key(x)) {
      var t := [x] + rest;
      forall i, j | 0 <= i < j < |t| ensures key(t[i]) != key(t[j]) {
        assert t[j] == rest[j - 1] && t[j] in rest;
        if i > 0 { assert t[i] == rest[i - 1]; }
      }
    }
  }

  /** Two tables with the same keys, position by position, and the same rows
      under key `k` answer a read of `k` alike. */
  lemma {:induction false} GetUnderSameKeys<R, K>(t: seq<R>, t': seq<R>, key: R -> K, k: K)
    requires |t'| == |t|
    requires forall i :: 0 <= i < |t| ==> key(t'[i]) == key(t[i])
    requires forall i :: 0 <= i < |t| && key(t[i]) == k ==> t'[i] == t[i]
    ensures Get(t', key, k) == Get(t, key, k)
    decreases |t|
  {
    if t != [] && key(t[0]) != k {
      GetUnderSameKeys(t[1..], t'[1..], key, k);
    }
  }

  /** After overwriting the rows under a present key, a read of that key gives the new row. */
  lemma {:induction false} GetReplace<R, K>(t: seq<R>, key: R -> K, row: R)
    requires Get(t, key, key(row)).Some?
    ensures Get(Replace(t, key, row), key, key(row)) == Some(row)
    decreases |t|
  {
    if key(t[0]) != key(row) {
      GetReplace(t[1..], key, row);
    }
  }

  /** Appending a row changes `Get` only for that row's key, and then only if the key was absent. */
  lemma {:induction false} GetAppend<R, K>(t: seq<R>, key: R -> K, row: R, k: K)
    requires Get(t, key, key(row)).None?
    ensures Get(t + [row], key, k) == if k == key(row) then Some(row) else Get(t, key, k)
    decreases |t|
  {
    if t != [] {
      assert (t + [row])[0] == t[0];
      assert (t + [row])[1..] == t[1..] + [row];
      if key(t[0]) != k {
        GetAppend(t[1..], key, row, k);
      }
    }
  }
}
