/** The value-level meaning of the bridge's entity indexes: what merging a
    loaded collection into an index does, and what a snapshot of an index is.
    The Bridge module proves its imperative load and save methods against
    these definitions; the lemmas here say what the definitions guarantee.

    Every index has a primary key (`key`) and a string-valued secondary key
    (`skey`) that is indexed only when it is non-empty. */
module Reconcile {

  /** The abstract value of one index: the record that the wrapper under each
      primary key embeds, and for each secondary key the primary key of the
      wrapper it points to. */
  datatype Index<K, R> = Index(primary: map<K, R>, secondary: map<string, K>)

  /** Merging one loaded record. An existing wrapper gets the new record and
      the secondary map is left alone; otherwise a new wrapper is indexed by
      its primary key and, when the secondary key is non-empty, by that too. */
  function Step<K, R>(ix: Index<K, R>, r: R, key: R -> K, skey: R -> string): Index<K, R>
  {
    var k := key(r);
    if k in ix.primary then
      Index(ix.primary[k := r], ix.secondary)
    else
      Index(ix.primary[k := r], if |skey(r)| > 0 then ix.secondary[skey(r) := k] else ix.secondary)
  }

  /** Merging a loaded collection, record by record in order. */
  function Merge<K, R>(ix: Index<K, R>, data: seq<R>, key: R -> K, skey: R -> string): Index<K, R>
    decreases |data|
  {
    if data == [] then ix
    else Step(Merge(ix, data[..|data| - 1], key, skey), data[|data| - 1], key, skey)
  }

  /** The primary keys occurring in `data`. */
  ghost function KeysOf<K, R>(data: seq<R>, key: R -> K): set<K>
  {
    set i | 0 <= i < |data| :: key(data[i])
  }

  /** `data[i]` is the last record in `data` with its primary key. */
  ghost predicate IsLast<K, R>(data: seq<R>, key: R -> K, i: int)
  {
    0 <= i < |data| && forall j :: i < j < |data| ==> key(data[j]) != key(data[i])
  }

  /** `data[i]` creates a wrapper: its key was not indexed before the merge
      and does not occur earlier in `data`. */
  ghost predicate Creates<K, R>(ix: Index<K, R>, data: seq<R>, key: R -> K, i: int)
  {
    0 <= i < |data| && key(data[i]) !in ix.primary
    && forall j :: 0 <= j < i ==> key(data[j]) != key(data[i])
  }

  /** `data[i]` creates a wrapper and enters it in the secondary map. */
  ghost predicate Inserts<K, R>(ix: Index<K, R>, data: seq<R>, key: R -> K, skey: R -> string, i: int)
  {
    Creates(ix, data, key, i) && |skey(data[i])| > 0
  }

  /** `data[i]` is the last record that enters its secondary key. */
  ghost predicate LastInsert<K, R>(ix: Index<K, R>, data: seq<R>, key: R -> K, skey: R -> string, i: int)
  {
    Inserts(ix, data, key, skey, i)
    && forall j :: i < j < |data| && Inserts(ix, data, key, skey, j) ==> skey(data[j]) != skey(data[i])
  }

  /** Every secondary entry points at an indexed wrapper. */
  ghost predicate SecondaryInPrimary<K, R>(ix: Index<K, R>)
  {
    forall s :: s in ix.secondary ==> ix.secondary[s] in ix.primary
  }

  lemma {:induction false} KeysOfSnoc<K, R>(data: seq<R>, key: R -> K)
    requires data != []
    ensures KeysOf(data, key) == KeysOf(data[..|data| - 1], key) + {key(data[|data| - 1])}
  {
    var n := |data| - 1;
    var pre := data[..n];
    forall x | x in KeysOf(data, key) ensures x in KeysOf(pre, key) + {key(data[n])} {
      var i :| 0 <= i < |data| && key(data[i]) == x;
      if i < n {
        assert key(pre[i]) == x;
      }
    }
    forall x | x in KeysOf(pre, key) ensures x in KeysOf(data, key) {
      var i :| 0 <= i < |pre| && key(pre[i]) == x;
      assert key(data[i]) == x;
    }
  }

  /** After a merge the primary map holds the old keys and the loaded ones. */
  lemma {:induction false} MergeKeys<K, R>(ix: Index<K, R>, data: seq<R>, key: R -> K, skey: R -> string)
    ensures Merge(ix, data, key, skey).primary.Keys == ix.primary.Keys + KeysOf(data, key)
  {
    if data != [] {
      MergeKeys(ix, data[..|data| - 1], key, skey);
      KeysOfSnoc(data, key);
    }
  }

  /** A key that was not loaded keeps its record. */
  lemma {:induction false} MergeUnloaded<K, R>(ix: Index<K, R>, data: seq<R>, key: R -> K, skey: R -> string, k: K)
    requires k in ix.primary && k !in KeysOf(data, key)
    ensures k in Merge(ix, data, key, skey).primary && Merge(ix, data, key, skey).primary[k] == ix.primary[k]
  {
    if data != [] {
      var n := |data| - 1;
      KeysOfSnoc(data, key);
      MergeUnloaded(ix, data[..n], key, skey, k);
    }
  }

  /** A loaded key maps to the LAST loaded record with that key. */
  lemma {:induction false} MergeLastWins<K, R>(ix: Index<K, R>, data: seq<R>, key: R -> K, skey: R -> string, i: int)
    requires IsLast(data, key, i)
    ensures key(data[i]) in Merge(ix, data, key, skey).primary
    ensures Merge(ix, data, key, skey).primary[key(data[i])] == data[i]
  {
    var n := |data| - 1;
    var pre := data[..n];
    if i < n {
      assert pre[i] == data[i];
      assert key(data[i]) != key(data[n]);
      assert IsLast(pre, key, i) by {
        forall j | i < j < |pre| ensures key(pre[j]) != key(pre[i]) {
          assert pre[j] == data[j];
        }
      }
      MergeLastWins(ix, pre, key, skey, i);
    }
  }

  /** After a merge the primary map holds the old keys and the loaded ones;
      a loaded key maps to the LAST loaded record with that key, and a key
      that was not loaded keeps its record. */
  lemma MergePrimary<K, R>(ix: Index<K, R>, data: seq<R>, key: R -> K, skey: R -> string)
    ensures Merge(ix, data, key, skey).primary.Keys == ix.primary.Keys + KeysOf(data, key)
    ensures forall k :: k in ix.primary && k !in KeysOf(data, key) ==>
      Merge(ix, data, key, skey).primary[k] == ix.primary[k]
    ensures forall i :: IsLast(data, key, i) ==>
      Merge(ix, data, key, skey).primary[key(data[i])] == data[i]
  {
    MergeKeys(ix, data, key, skey);
    forall k | k in ix.primary && k !in KeysOf(data, key)
      ensures Merge(ix, data, key, skey).primary[k] == ix.primary[k]
    {
      MergeUnloaded(ix, data, key, skey, k);
    }
    forall i | IsLast(data, key, i)
      ensures Merge(ix, data, key, skey).primary[key(data[i])] == data[i]
    {
      MergeLastWins(ix, data, key, skey, i);
    }
  }

  /** Every loaded key has a last occurrence, so the previous lemma covers it. */
  lemma {:induction false} LastExists<K, R>(data: seq<R>, key: R -> K, k: K)
    requires k in KeysOf(data, key)
    ensures exists i :: IsLast(data, key, i) && key(data[i]) == k
    decreases |data|
  {
    var n := |data| - 1;
    if key(data[n]) == k {
      assert IsLast(data, key, n);
    } else {
      KeysOfSnoc(data, key);
      var pre := data[..n];
      LastExists(pre, key, k);
      var i :| IsLast(pre, key, i) && key(pre[i]) == k;
      assert data[i] == pre[i];
      assert IsLast(data, key, i) by {
        forall j | i < j < |data| ensures key(data[j]) != key(data[i]) {
          if j < n {
            assert data[j] == pre[j];
          }
        }
      }
    }
  }

  /** Whether an earlier record inserts is the same in a prefix. */
  lemma {:induction false} InsertsInPrefix<K, R>(ix: Index<K, R>, data: seq<R>, key: R -> K, skey: R -> string, n: nat, i: nat)
    requires i < n <= |data|
    ensures Inserts(ix, data, key, skey, i) <==> Inserts(ix, data[..n], key, skey, i)
    ensures data[..n][i] == data[i]
  {
    assert forall j :: 0 <= j <= i ==> data[..n][j] == data[j];
  }

  /** The last loaded record creates a wrapper exactly when its key is not
      yet indexed after merging the records before it. */
  lemma {:induction false} CreatesLast<K, R>(ix: Index<K, R>, data: seq<R>, key: R -> K, skey: R -> string)
    requires data != []
    ensures var n := |data| - 1;
      Creates(ix, data, key, n) <==> key(data[n]) !in Merge(ix, data[..n], key, skey).primary
  {
    var n := |data| - 1;
    var pre := data[..n];
    MergeKeys(ix, pre, key, skey);
    if key(data[n]) in KeysOf(pre, key) {
      var j :| 0 <= j < |pre| && key(pre[j]) == key(data[n]);
      assert key(data[j]) == key(data[n]);
    } else {
      forall j | 0 <= j < n ensures key(data[j]) != key(data[n]) {
        assert key(pre[j]) in KeysOf(pre, key);
      }
    }
  }

  /** The secondary map after merging the records before the last one, and
      after merging all of them. */
  lemma {:induction false} SecondarySnoc<K, R>(ix: Index<K, R>, data: seq<R>, key: R -> K, skey: R -> string)
    requires data != []
    ensures var n := |data| - 1;
      Merge(ix, data, key, skey).secondary ==
        if Inserts(ix, data, key, skey, n)
        then Merge(ix, data[..n], key, skey).secondary[skey(data[n]) := key(data[n])]
        else Merge(ix, data[..n], key, skey).secondary
  {
    CreatesLast(ix, data, key, skey);
  }

  /** Some record of `data` creates a wrapper and enters it under `s`. */
  ghost predicate Inserted<K, R>(ix: Index<K, R>, data: seq<R>, key: R -> K, skey: R -> string, s: string)
  {
    exists i :: Inserts(ix, data, key, skey, i) && skey(data[i]) == s
  }

  lemma {:induction false} InsertedSnoc<K, R>(ix: Index<K, R>, data: seq<R>, key: R -> K, skey: R -> string, s: string)
    requires data != []
    ensures var n := |data| - 1;
      Inserted(ix, data, key, skey, s) <==>
        Inserted(ix, data[..n], key, skey, s) || (Inserts(ix, data, key, skey, n) && skey(data[n]) == s)
  {
    var n := |data| - 1;
    var pre := data[..n];
    if Inserted(ix, data, key, skey, s) {
      var i :| Inserts(ix, data, key, skey, i) && skey(data[i]) == s;
      if i < n {
        InsertsInPrefix(ix, data, key, skey, n, i);
      }
    }
    if Inserted(ix, pre, key, skey, s) {
      var i :| Inserts(ix, pre, key, skey, i) && skey(pre[i]) == s;
      InsertsInPrefix(ix, data, key, skey, n, i);
    }
  }

  /** A key is in the secondary map after a merge exactly when it was
      before or some record that created a wrapper carries it. */
  lemma {:induction false} MergeSecondaryKey<K, R>(ix: Index<K, R>, data: seq<R>, key: R -> K, skey: R -> string, s: string)
    ensures s in Merge(ix, data, key, skey).secondary <==> s in ix.secondary || Inserted(ix, data, key, skey, s)
  {
    if data != [] {
      MergeSecondaryKey(ix, data[..|data| - 1], key, skey, s);
      SecondarySnoc(ix, data, key, skey);
      InsertedSnoc(ix, data, key, skey, s);
    }
  }

  lemma MergeSecondaryKeys<K, R>(ix: Index<K, R>, data: seq<R>, key: R -> K, skey: R -> string)
    ensures forall s :: s in Merge(ix, data, key, skey).secondary <==>
      (s in ix.secondary || exists i :: Inserts(ix, data, key, skey, i) && skey(data[i]) == s)
  {
    forall s ensures s in Merge(ix, data, key, skey).secondary <==>
      (s in ix.secondary || exists i :: Inserts(ix, data, key, skey, i) && skey(data[i]) == s)
    {
      MergeSecondaryKey(ix, data, key, skey, s);
    }
  }

  /** A secondary key that no creating record carries keeps its entry. */
  lemma {:induction false} MergeSecondaryKeptAt<K, R>(ix: Index<K, R>, data: seq<R>, key: R -> K, skey: R -> string, s: string)
    requires s in ix.secondary
    requires forall i :: Inserts(ix, data, key, skey, i) ==> skey(data[i]) != s
    ensures s in Merge(ix, data, key, skey).secondary
    ensures Merge(ix, data, key, skey).secondary[s] == ix.secondary[s]
  {
    if data != [] {
      var n := |data| - 1;
      var pre := data[..n];
      SecondarySnoc(ix, data, key, skey);
      forall i | Inserts(ix, pre, key, skey, i) ensures skey(pre[i]) != s {
        InsertsInPrefix(ix, data, key, skey, n, i);
      }
      MergeSecondaryKeptAt(ix, pre, key, skey, s);
    }
  }

  lemma MergeSecondaryKept<K, R>(ix: Index<K, R>, data: seq<R>, key: R -> K, skey: R -> string)
    ensures forall s :: s in ix.secondary && (forall i :: Inserts(ix, data, key, skey, i) ==> skey(data[i]) != s) ==>
      s in Merge(ix, data, key, skey).secondary && Merge(ix, data, key, skey).secondary[s] == ix.secondary[s]
  {
    forall s | s in ix.secondary && (forall i :: Inserts(ix, data, key, skey, i) ==> skey(data[i]) != s)
      ensures s in Merge(ix, data, key, skey).secondary
      ensures Merge(ix, data, key, skey).secondary[s] == ix.secondary[s]
    {
      MergeSecondaryKeptAt(ix, data, key, skey, s);
    }
  }

  /** The last record that enters a secondary key leaves it pointing at its
      own primary key. */
  lemma {:induction false} MergeSecondaryLastAt<K, R>(ix: Index<K, R>, data: seq<R>, key: R -> K, skey: R -> string, i: int)
    requires LastInsert(ix, data, key, skey, i)
    ensures skey(data[i]) in Merge(ix, data, key, skey).secondary
    ensures Merge(ix, data, key, skey).secondary[skey(data[i])] == key(data[i])
  {
    var n := |data| - 1;
    var pre := data[..n];
    SecondarySnoc(ix, data, key, skey);
    if i < n {
      assert Inserts(ix, data, key, skey, n) ==> skey(data[n]) != skey(data[i]);
      InsertsInPrefix(ix, data, key, skey, n, i);
      assert LastInsert(ix, pre, key, skey, i) by {
        forall j | i < j < |pre| && Inserts(ix, pre, key, skey, j)
          ensures skey(pre[j]) != skey(pre[i])
        {
          InsertsInPrefix(ix, data, key, skey, n, j);
        }
      }
      MergeSecondaryLastAt(ix, pre, key, skey, i);
    }
  }

  lemma MergeSecondaryLast<K, R>(ix: Index<K, R>, data: seq<R>, key: R -> K, skey: R -> string)
    ensures forall i :: LastInsert(ix, data, key, skey, i) ==>
      skey(data[i]) in Merge(ix, data, key, skey).secondary && Merge(ix, data, key, skey).secondary[skey(data[i])] == key(data[i])
  {
    forall i | LastInsert(ix, data, key, skey, i)
      ensures skey(data[i]) in Merge(ix, data, key, skey).secondary
      ensures Merge(ix, data, key, skey).secondary[skey(data[i])] == key(data[i])
    {
      MergeSecondaryLastAt(ix, data, key, skey, i);
    }
  }

  /** Every secondary key that some creating record carries has a last such
      record. */
  lemma {:induction false} LastInsertExists<K, R>(ix: Index<K, R>, data: seq<R>, key: R -> K, skey: R -> string, s: string)
    requires Inserted(ix, data, key, skey, s)
    ensures exists i :: LastInsert(ix, data, key, skey, i) && skey(data[i]) == s
  {
    var m :| Inserts(ix, data, key, skey, m) && skey(data[m]) == s;
    while exists j :: m < j < |data| && Inserts(ix, data, key, skey, j) && skey(data[j]) == s
      invariant Inserts(ix, data, key, skey, m) && skey(data[m]) == s
      decreases |data| - m
    {
      var j :| m < j < |data| && Inserts(ix, data, key, skey, j) && skey(data[j]) == s;
      m := j;
    }
    assert LastInsert(ix, data, key, skey, m);
  }

  /** The value of each key of the merged secondary map: the primary key of
      the last creating record that carries it, or else its old entry. */
  lemma {:induction false} MergeSecondaryValue<K, R>(ix: Index<K, R>, data: seq<R>, key: R -> K, skey: R -> string, s: string)
    requires s in Merge(ix, data, key, skey).secondary
    ensures Inserted(ix, data, key, skey, s) ==>
      exists i :: LastInsert(ix, data, key, skey, i) && skey(data[i]) == s
                  && Merge(ix, data, key, skey).secondary[s] == key(data[i])
    ensures !Inserted(ix, data, key, skey, s) ==>
      s in ix.secondary && Merge(ix, data, key, skey).secondary[s] == ix.secondary[s]
  {
    MergeSecondaryKey(ix, data, key, skey, s);
    if Inserted(ix, data, key, skey, s) {
      LastInsertExists(ix, data, key, skey, s);
      var i :| LastInsert(ix, data, key, skey, i) && skey(data[i]) == s;
      MergeSecondaryLastAt(ix, data, key, skey, i);
    } else {
      MergeSecondaryKeptAt(ix, data, key, skey, s);
    }
  }

  /** After a merge the secondary map holds its old keys and the non-empty
      secondary keys of the records that created wrappers; such a key points
      at the last creating record that carries it (one always exists), and
      any other key keeps its entry. Records whose wrapper already existed
      play no part. */
  lemma {:induction false} MergeSecondary<K, R>(ix: Index<K, R>, data: seq<R>, key: R -> K, skey: R -> string)
    ensures forall s :: s in Merge(ix, data, key, skey).secondary <==>
      (s in ix.secondary || exists i :: Inserts(ix, data, key, skey, i) && skey(data[i]) == s)
    ensures forall s :: s in ix.secondary && (forall i :: Inserts(ix, data, key, skey, i) ==> skey(data[i]) != s) ==>
      s in Merge(ix, data, key, skey).secondary && Merge(ix, data, key, skey).secondary[s] == ix.secondary[s]
    ensures forall i :: LastInsert(ix, data, key, skey, i) ==>
      skey(data[i]) in Merge(ix, data, key, skey).secondary && Merge(ix, data, key, skey).secondary[skey(data[i])] == key(data[i])
    ensures forall s :: s in Merge(ix, data, key, skey).secondary && Inserted(ix, data, key, skey, s) ==>
      exists i :: LastInsert(ix, data, key, skey, i) && skey(data[i]) == s
                  && Merge(ix, data, key, skey).secondary[s] == key(data[i])
  {
    MergeSecondaryKeys(ix, data, key, skey);
    MergeSecondaryKept(ix, data, key, skey);
    MergeSecondaryLast(ix, data, key, skey);
    forall s | s in Merge(ix, data, key, skey).secondary && Inserted(ix, data, key, skey, s)
      ensures exists i :: LastInsert(ix, data, key, skey, i) && skey(data[i]) == s
                          && Merge(ix, data, key, skey).secondary[s] == key(data[i])
    {
      MergeSecondaryValue(ix, data, key, skey, s);
    }
  }

  /** Re-loading a snapshot of an index into that same index changes
      nothing: every wrapper exists, so the secondary map stays, and every
      wrapper gets back the record it already had. */
  lemma {:induction false} ReloadOwnSnapshot<K, R>(ix: Index<K, R>, s: seq<R>, key: R -> K, skey: R -> string)
    requires IsSnapshot(s, ix.primary, key)
    ensures Merge(ix, s, key, skey) == ix
  {
    var after := Merge(ix, s, key, skey);
    forall k | k in KeysOf(s, key) ensures k in ix.primary {
      var n :| 0 <= n < |s| && key(s[n]) == k;
    }
    MergeExistingKeepsSecondary(ix, s, key, skey);
    forall k | k in ix.primary ensures after.primary[k] == ix.primary[k] {
      var n :| 0 <= n < |s| && key(s[n]) == k;
      assert IsLast(s, key, n) by {
        forall j | n < j < |s| ensures key(s[j]) != key(s[n]) {
          assert key(s[n]) != key(s[j]);
        }
      }
      MergeLastWins(ix, s, key, skey, n);
    }
    assert after.primary == ix.primary;
  }

  /** Merging records whose wrappers all exist already leaves the secondary
      map as it was: re-loading a collection creates no new wrappers. */
  lemma {:induction false} MergeExistingKeepsSecondary<K, R>(ix: Index<K, R>, data: seq<R>, key: R -> K, skey: R -> string)
    requires KeysOf(data, key) <= ix.primary.Keys
    ensures Merge(ix, data, key, skey).secondary == ix.secondary
    ensures Merge(ix, data, key, skey).primary.Keys == ix.primary.Keys
  {
    if data != [] {
      var n := |data| - 1;
      KeysOfSnoc(data, key);
      MergeExistingKeepsSecondary(ix, data[..n], key, skey);
    }
  }

  /** Re-loading a record into an existing wrapper keeps a secondary entry
      that points at it even when the record no longer carries that key: the
      secondary map is not re-derived from the new record. */
  lemma StaleSecondary<K, R>(ix: Index<K, R>, r: R, key: R -> K, skey: R -> string, s: string)
    requires key(r) in ix.primary && s in ix.secondary && ix.secondary[s] == key(r)
    ensures var after := Step(ix, r, key, skey);
      s in after.secondary && after.secondary[s] == key(r) && after.primary[key(r)] == r
  {
  }

  /** Every record sits under its own primary key, and every secondary entry
      points at an indexed wrapper. */
  ghost predicate WellFormed<K, R>(ix: Index<K, R>, key: R -> K)
  {
    && (forall k :: k in ix.primary ==> key(ix.primary[k]) == k)
    && SecondaryInPrimary(ix)
  }

  /** One record keeps the index well formed. */
  lemma {:induction false} StepKeepsWellFormed<K, R>(ix: Index<K, R>, r: R, key: R -> K, skey: R -> string)
    requires WellFormed(ix, key)
    ensures WellFormed(Step(ix, r, key, skey), key)
  {
  }

  /** A merge keeps the index well formed. */
  lemma {:induction false} MergeKeepsWellFormed<K, R>(ix: Index<K, R>, data: seq<R>, key: R -> K, skey: R -> string)
    requires WellFormed(ix, key)
    ensures WellFormed(Merge(ix, data, key, skey), key)
  {
    if data != [] {
      var n := |data| - 1;
      MergeKeepsWellFormed(ix, data[..n], key, skey);
      StepKeepsWellFormed(Merge(ix, data[..n], key, skey), data[n], key, skey);
    }
  }


  /** `s` lists the records of `prim` once each, in some order: consistent
      with their keys, with distinct keys, covering every key. */
  ghost predicate IsSnapshot<K, R>(s: seq<R>, prim: map<K, R>, key: R -> K)
  {
    && |s| == |prim|
    && (forall n :: 0 <= n < |s| ==> key(s[n]) in prim && prim[key(s[n])] == s[n])
    && (forall n, m :: 0 <= n < m < |s| ==> key(s[n]) != key(s[m]))
    && (forall k :: k in prim ==> exists n :: 0 <= n < |s| && key(s[n]) == k)
  }

  /** `s` is a snapshot in progress: the records of `prim` whose keys are no
      longer in `rest`, each once, with `pos` giving where each one went. */
  ghost predicate PartialSnapshot<K, R>(s: seq<R>, prim: map<K, R>, key: R -> K, rest: set<K>, pos: map<K, nat>)
  {
    && rest <= prim.Keys
    && (forall n :: 0 <= n < |s| ==> key(s[n]) in prim && key(s[n]) !in rest && prim[key(s[n])] == s[n])
    && (forall n, m :: 0 <= n < m < |s| ==> key(s[n]) != key(s[m]))
    && (forall k :: k in prim && k !in rest ==> k in pos && pos[k] < |s| && key(s[pos[k]]) == k)
  }

  /** Appending the record of a key still to go extends a snapshot in progress. */
  lemma {:induction false} PartialSnapshotStep<K, R>(s: seq<R>, prim: map<K, R>, key: R -> K, rest: set<K>, pos: map<K, nat>, k: K)
    requires PartialSnapshot(s, prim, key, rest, pos)
    requires k in rest && key(prim[k]) == k
    ensures PartialSnapshot(s + [prim[k]], prim, key, rest - {k}, pos[k := |s|])
  {
  }

  /** A finished sweep is a snapshot. */
  lemma {:induction false} PartialSnapshotDone<K, R>(s: seq<R>, prim: map<K, R>, key: R -> K, pos: map<K, nat>)
    requires PartialSnapshot(s, prim, key, {}, pos) && |s| == |prim|
    ensures IsSnapshot(s, prim, key)
  {
    forall k | k in prim ensures exists n :: 0 <= n < |s| && key(s[n]) == k {
      assert key(s[pos[k]]) == k;
    }
  }

  lemma {:induction false} OccursOnce<R>(s: seq<R>, x: R, n: nat)
    requires n < |s| && s[n] == x
    requires forall m :: 0 <= m < |s| && m != n ==> s[m] != x
    ensures multiset(s)[x] == 1
  {
    assert s == s[..n] + [x] + s[n + 1..];
    assert x !in s[..n];
    assert x !in s[n + 1..];
  }

  /** A snapshot holds each record of the map exactly once and nothing else. */
  lemma {:induction false} SnapshotCounts<K, R>(s: seq<R>, prim: map<K, R>, key: R -> K)
    requires IsSnapshot(s, prim, key)
    ensures forall k :: k in prim ==> multiset(s)[prim[k]] == 1
    ensures forall x :: x in multiset(s) ==> x in prim.Values
  {
    forall k | k in prim ensures multiset(s)[prim[k]] == 1 {
      var n :| 0 <= n < |s| && key(s[n]) == k;
      forall m | 0 <= m < |s| && m != n ensures s[m] != prim[k] {
        if m < n { assert key(s[m]) != key(s[n]); } else { assert key(s[n]) != key(s[m]); }
      }
      OccursOnce(s, prim[k], n);
    }
    forall x | x in multiset(s) ensures x in prim.Values {
      var n :| 0 <= n < |s| && s[n] == x;
      assert prim[key(s[n])] == x;
    }
  }

  /** Loading a snapshot into an empty index gives back the records it was
      taken from. */
  lemma ReloadSnapshot<K, R>(s: seq<R>, prim: map<K, R>, key: R -> K, skey: R -> string)
    requires IsSnapshot(s, prim, key)
    ensures Merge(Index(map[], map[]), s, key, skey).primary == prim
  {
    var ix: Index<K, R> := Index(map[], map[]);
    var m := Merge(ix, s, key, skey).primary;
    ReloadKeys(s, prim, key, skey);
    forall k | k in prim ensures m[k] == prim[k] {
      ReloadRecord(s, prim, key, skey, k);
    }
  }

  lemma {:induction false} ReloadKeys<K, R>(s: seq<R>, prim: map<K, R>, key: R -> K, skey: R -> string)
    requires IsSnapshot(s, prim, key)
    ensures Merge(Index(map[], map[]), s, key, skey).primary.Keys == prim.Keys
  {
    MergeKeys(Index(map[], map[]), s, key, skey);
    forall k | k in KeysOf(s, key) ensures k in prim {
      var n :| 0 <= n < |s| && key(s[n]) == k;
    }
    forall k | k in prim ensures k in KeysOf(s, key) {
      var n :| 0 <= n < |s| && key(s[n]) == k;
    }
  }

  lemma {:induction false} ReloadRecord<K, R>(s: seq<R>, prim: map<K, R>, key: R -> K, skey: R -> string, k: K)
    requires IsSnapshot(s, prim, key) && k in prim
    ensures k in Merge(Index(map[], map[]), s, key, skey).primary
    ensures Merge(Index(map[], map[]), s, key, skey).primary[k] == prim[k]
  {
    var n :| 0 <= n < |s| && key(s[n]) == k;
    assert IsLast(s, key, n) by {
      forall j | n < j < |s| ensures key(s[j]) != key(s[n]) {
        assert key(s[n]) != key(s[j]);
      }
    }
    MergeLastWins(Index(map[], map[]), s, key, skey, n);
  }


}
