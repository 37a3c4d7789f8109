/** What merging ascending tables means: newest record per key, tombstones dropped. */
module MergeSpec {
  import opened ByteStrings
  import opened Codec
  import opened RecordLog
  import opened EngineSpec

  /** The unread records of each table, oldest table first. */
  type Pending = seq<seq<Record>>

  ghost function Overlay(p: Pending): map<Bytes, Record>
  {
    if p == [] then map[] else Overlay(p[..|p| - 1]) + Fold(p[|p| - 1])
  }

  ghost function Unread(p: Pending): nat
  {
    if p == [] then 0 else Unread(p[..|p| - 1]) + |p[|p| - 1]|
  }

  ghost predicate AllAscending(p: Pending)
  {
    forall i :: 0 <= i < |p| ==> AscendingRecords(p[i])
  }

  /** Table t steps over its first record. */
  ghost function Advanced(p: Pending, t: nat): Pending
    requires t < |p| && p[t] != []
  {
    p[t := p[t][1..]]
  }

  lemma {:induction false} UnreadAdvanced(p: Pending, t: nat)
    requires t < |p| && p[t] != []
    ensures Unread(Advanced(p, t)) == Unread(p) - 1
  {
    var n := |p| - 1;
    if t == n {
      assert Advanced(p, t)[..n] == p[..n];
    } else {
      assert Advanced(p, t)[..n] == Advanced(p[..n], t);
      UnreadAdvanced(p[..n], t);
    }
  }

  /** Nothing pending comes before key; nothing at all carries key, or only records that are first in their table. */
  ghost predicate NotBelow(p: Pending, key: Bytes)
  {
    forall i :: 0 <= i < |p| && p[i] != [] ==> p[i][0].key == key || Less(key, p[i][0].key)
  }

  /** q is p with key's record taken off the tables that have it first. */
  ghost predicate Cleared(p: Pending, q: Pending, key: Bytes)
  {
    |q| == |p|
    && forall i :: 0 <= i < |p| ==> q[i] == if p[i] != [] && p[i][0].key == key then p[i][1..] else p[i]
  }

  lemma FoldWithoutKey(recs: seq<Record>, key: Bytes)
    requires AscendingRecords(recs) && (recs == [] || Less(key, recs[0].key))
    ensures key !in Fold(recs)
  {
    hide Less, Fold;
    if key in Fold(recs) {
      var i := FoldFrom(recs, key);
      if i > 0 {
        LessAsymmetric(key, recs[0].key);
      } else {
        LessIrreflexive(key);
      }
    }
  }

  /** Taking a table's first record off takes its key off. */
  lemma FoldTail(recs: seq<Record>)
    requires recs != [] && AscendingRecords(recs)
    ensures Fold(recs) == Fold(recs[1..])[recs[0].key := recs[0]] && Fold(recs[1..]) == Fold(recs) - {recs[0].key}
  {
    hide Less, Fold;
    assert recs == [recs[0]] + recs[1..];
    FoldAppend([recs[0]], recs[1..]);
    FoldSnoc([], recs[0]);
    FoldEmpty();
    assert [] + [recs[0]] == [recs[0]];
    FoldWithoutKey(recs[1..], recs[0].key);
  }

  /** One round of the merge: clearing the least key removes exactly that key from the overlay. */
  lemma {:induction false} ClearedOverlay(p: Pending, q: Pending, key: Bytes)
    requires AllAscending(p) && NotBelow(p, key) && Cleared(p, q, key)
    ensures Overlay(q) == Overlay(p) - {key} && AllAscending(q)
  {
    hide Less, Fold, AscendingRecords;
    if p != [] {
      var n := |p| - 1;
      ClearedOverlay(p[..n], q[..n], key);
      ClearedTable(p, q, key, n);
      assert forall i :: 0 <= i < n ==> q[i] == q[..n][i];
    }
  }

  lemma ClearedTable(p: Pending, q: Pending, key: Bytes, n: nat)
    requires AllAscending(p) && NotBelow(p, key) && Cleared(p, q, key) && n < |p|
    ensures Fold(q[n]) == Fold(p[n]) - {key} && AscendingRecords(q[n])
  {
    hide Less, Fold, AscendingRecords;
    if p[n] != [] && p[n][0].key == key {
      FoldTail(p[n]);
      TailAscends(p[n]);
    } else {
      FoldWithoutKey(p[n], key);
    }
  }

  lemma TailAscends(recs: seq<Record>)
    requires recs != [] && AscendingRecords(recs)
    ensures AscendingRecords(recs[1..])
  {
    hide Less;
  }

  /** The first record of the newest table that has key first is the overlay's record of key. */
  lemma {:induction false} NewestHead(p: Pending, key: Bytes, t: nat)
    requires AllAscending(p) && NotBelow(p, key) && t < |p| && p[t] != [] && p[t][0].key == key
    requires forall i :: t < i < |p| && p[i] != [] ==> p[i][0].key != key
    ensures key in Overlay(p) && Overlay(p)[key] == p[t][0]
  {
    hide Less, Fold, AscendingRecords;
    var n := |p| - 1;
    if t == n {
      FoldTail(p[n]);
    } else {
      NewestHead(p[..n], key, t);
      FoldWithoutKey(p[n], key);
    }
  }

  /** Every pending key is at least the least head. */
  lemma {:induction false} OverlayNotBelow(p: Pending, key: Bytes, k: Bytes)
    requires AllAscending(p) && NotBelow(p, key) && k in Overlay(p)
    ensures k == key || Less(key, k)
  {
    hide Less, Fold;
    var n := |p| - 1;
    if k in Fold(p[n]) {
      var i := FoldFrom(p[n], k);
      if i > 0 && Less(key, p[n][0].key) {
        LessTransitive(key, p[n][0].key, k);
      }
    } else {
      OverlayNotBelow(p[..n], key, k);
    }
  }

  lemma {:induction false} OverlayEmpty(p: Pending)
    requires forall i :: 0 <= i < |p| ==> p[i] == []
    ensures Overlay(p) == map[]
  {
    if p != [] {
      OverlayEmpty(p[..|p| - 1]);
    }
  }

  /** The output so far, completed by the live records still pending, is the merge of everything. */
  ghost predicate Merging(all: map<Bytes, Record>, p: Pending, out: seq<Record>)
  {
    && AscendingRecords(out)
    && (forall i, k :: 0 <= i < |out| && k in Overlay(p) ==> Less(out[i].key, k))
    && PutsOnly(Overlay(p)) + Fold(out) == PutsOnly(all)
  }

  lemma MergeStart(p: Pending)
    ensures Merging(Overlay(p), p, [])
  {
    FoldEmpty();
    assert PutsOnly(Overlay(p)) + map[] == PutsOnly(Overlay(p));
  }

  /** One round keeps the merge: the key's newest record is written if it is a Put and dropped if it is not. */
  lemma MergeRound(all: map<Bytes, Record>, p: Pending, q: Pending, out: seq<Record>, latest: Record)
    requires Merging(all, p, out) && AllAscending(p) && NotBelow(p, latest.key) && Cleared(p, q, latest.key)
    requires latest.key in Overlay(p) && Overlay(p)[latest.key] == latest
    ensures Merging(all, q, if latest.typ == TYPE_PUT then out + [latest] else out)
  {
    hide Less, Fold, Overlay, AscendingRecords;
    ClearedOverlay(p, q, latest.key);
    var out' := if latest.typ == TYPE_PUT then out + [latest] else out;
    FoldSnoc(out, latest);
    OutputKeys(all, p, out, latest);
    forall k | k in Overlay(q) ensures Less(latest.key, k) {
      OverlayNotBelow(p, latest.key, k);
    }
    NotWrittenYet(all, p, out, latest);
    assert PutsOnly(Overlay(q)) == PutsOnly(Overlay(p)) - {latest.key};
  }

  /** A record about to be written is one the whole merge keeps. */
  lemma LatestKept(all: map<Bytes, Record>, p: Pending, out: seq<Record>, latest: Record)
    requires Merging(all, p, out) && latest.key in Overlay(p) && Overlay(p)[latest.key] == latest
             && latest.typ == TYPE_PUT
    ensures latest.key in PutsOnly(all) && PutsOnly(all)[latest.key] == latest
  {
    hide Less, Fold, Overlay;
    NotWrittenYet(all, p, out, latest);
    assert latest.key in PutsOnly(all);
  }

  lemma OutputKeys(all: map<Bytes, Record>, p: Pending, out: seq<Record>, latest: Record)
    requires Merging(all, p, out) && latest.key in Overlay(p)
    ensures AscendingRecords(out + [latest])
  {
    hide Less, Fold, Overlay;
  }

  lemma NotWrittenYet(all: map<Bytes, Record>, p: Pending, out: seq<Record>, latest: Record)
    requires Merging(all, p, out) && latest.key in Overlay(p)
    ensures latest.key !in Fold(out)
  {
    hide Less, Fold, Overlay;
    if latest.key in Fold(out) {
      var i := FoldFrom(out, latest.key);
      LessIrreflexive(latest.key);
    }
  }

  /** When nothing is pending the output is the sorted listing of the live records. */
  lemma MergeDone(all: map<Bytes, Record>, p: Pending, out: seq<Record>)
    requires Merging(all, p, out) && forall i :: 0 <= i < |p| ==> p[i] == []
    ensures out == SortedRecords(PutsOnly(all)) && (out == [] <==> PutsOnly(all) == map[])
  {
    hide *;
    NothingLeft(all, p, out);
    AscendingRecordsUnique(out);
    NonEmptyFold(out);
  }

  lemma NothingLeft(all: map<Bytes, Record>, p: Pending, out: seq<Record>)
    requires Merging(all, p, out) && forall i :: 0 <= i < |p| ==> p[i] == []
    ensures AscendingRecords(out) && Fold(out) == PutsOnly(all)
  {
    hide Less, Fold, Overlay, AscendingRecords;
    OverlayEmpty(p);
    assert PutsOnly(map[]) == map[];
    assert map[] + Fold(out) == Fold(out);
  }

  lemma NonEmptyFold(recs: seq<Record>)
    requires AscendingRecords(recs)
    ensures recs == [] <==> Fold(recs) == map[]
  {
    hide Less, AscendingRecords, Fold;
    FoldEmpty();
    if recs != [] {
      FoldAt(recs, 0);
    }
  }
}
