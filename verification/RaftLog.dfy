/** The replicated log as the state machine reads it: encoded commands applied to a flat map. */
module RaftLog {
  import opened ByteStrings
  import opened Wrappers
  import opened Codec
  import opened EngineSpec

  /** DecodeCommand and the dispatch of FSM.Apply: the database operation an entry stands for, or the error it
      answers. */
  function EntryOp(data: Bytes): (r: Result<Op>)
    ensures r.Ok? ==> (r.value.Put? || r.value.Delete?) && OpError(r.value) == None
  {
    var d := Decode(data).res;
    if d.Err? then Err(d.error)
    else
      EncodeDecode(data);
      if d.value.typ == TYPE_PUT then Ok(Op.Put(d.value.key, d.value.value)) else Ok(Op.Delete(d.value.key))
  }

  lemma EntryOpCases(data: Bytes)
    ensures var d := Decode(data).res;
            if d.Err? then EntryOp(data) == Err(d.error) && d.error != ErrIO
            else
              var r, op := d.value, EntryOp(data);
              && r.key != [] && op == Ok(if r.typ == TYPE_PUT then Op.Put(r.key, r.value) else Op.Delete(r.key))
              && OpRecord(op.value) == if r.typ == TYPE_PUT then Record(TYPE_PUT, r.key, r.value)
                                       else Record(TYPE_DELETE, r.key, [])
  {
    hide Decode, CheckEncodePara;
    if Decode(data).res.Ok? {
      EncodeDecode(data);
    }
  }

  /** EncodeCommand. */
  function EncodeOp(op: Op): Bytes
    requires (op.Put? || op.Delete?) && OpError(op) == None
  {
    Layout(OpRecord(op))
  }

  /** What a store submits is what the state machine applies. */
  lemma EntryOpRoundTrip(op: Op)
    requires (op.Put? || op.Delete?) && OpError(op) == None
    ensures EntryOp(EncodeOp(op)) == Ok(op)
  {
    var r := OpRecord(op);
    DecodeEncode(r, []);
    assert Layout(r) + [] == Layout(r);
  }

  function FlatApply(m: map<Bytes, Bytes>, data: Bytes): map<Bytes, Bytes>
  {
    if EntryOp(data).Ok? then FlatStep(m, EntryOp(data).value) else m
  }

  /** Entries applied one after another on top of m. */
  function ApplyAll(m: map<Bytes, Bytes>, log: seq<Bytes>): map<Bytes, Bytes>
  {
    if log == [] then m else FlatApply(ApplyAll(m, log[..|log| - 1]), log[|log| - 1])
  }

  /** The state the log determines. */
  function LogState(log: seq<Bytes>): map<Bytes, Bytes>
  {
    ApplyAll(map[], log)
  }

  predicate Touches(data: Bytes, key: Bytes)
  {
    EntryOp(data).Ok? && EntryOp(data).value.key == key
  }

  ghost predicate Touched(log: seq<Bytes>, key: Bytes)
  {
    exists i :: 0 <= i < |log| && Touches(log[i], key)
  }

  ghost predicate SameAt(m: map<Bytes, Bytes>, n: map<Bytes, Bytes>, key: Bytes)
  {
    (key in m <==> key in n) && (key in m ==> m[key] == n[key])
  }

  /** Position after the last entry of the log that writes key; 0 if none does. */
  function Version(log: seq<Bytes>, key: Bytes): (v: nat)
    ensures v <= |log|
  {
    if log == [] then 0
    else if Touches(log[|log| - 1], key) then |log|
    else Version(log[..|log| - 1], key)
  }

  lemma ApplyAt(m: map<Bytes, Bytes>, n: map<Bytes, Bytes>, data: Bytes, key: Bytes)
    ensures Touches(data, key) ==> SameAt(FlatApply(m, data), FlatApply(n, data), key)
    ensures !Touches(data, key) ==> SameAt(FlatApply(m, data), m, key)
  {
  }

  lemma TouchedPrefix(log: seq<Bytes>, a: nat, b: nat, key: Bytes)
    requires a <= b <= |log| && Touched(log[..a], key)
    ensures Touched(log[..b], key)
  {
    hide Touches;
    var i :| 0 <= i < a && Touches(log[..a][i], key);
    assert Touches(log[..b][i], key);
  }

  lemma TouchedStep(log: seq<Bytes>, a: nat, key: Bytes)
    requires a < |log|
    ensures Touched(log[..a + 1], key) <==> Touched(log[..a], key) || Touches(log[a], key)
  {
    hide Touches;
    assert log[..a + 1] == log[..a] + [log[a]];
    if Touched(log[..a + 1], key) {
      var i :| 0 <= i < a + 1 && Touches(log[..a + 1][i], key);
      if i < a {
        assert Touches(log[..a][i], key);
      }
    }
    if Touched(log[..a], key) {
      TouchedPrefix(log, a, a + 1, key);
    }
    if Touches(log[a], key) {
      assert Touches(log[..a + 1][a], key);
    }
  }

  lemma ApplyAllStep(m: map<Bytes, Bytes>, log: seq<Bytes>, a: nat)
    requires a < |log|
    ensures ApplyAll(m, log[..a + 1]) == FlatApply(ApplyAll(m, log[..a]), log[a])
  {
    hide FlatApply;
    assert log[..a + 1][..a] == log[..a];
  }

  /** A key no entry writes is not in the state. */
  lemma {:induction false} UntouchedAbsent(log: seq<Bytes>, key: Bytes)
    requires !Touched(log, key)
    ensures key !in LogState(log)
  {
    hide Touches, FlatApply;
    if log != [] {
      var a := |log| - 1;
      assert log[..a + 1] == log;
      TouchedStep(log, a, key);
      UntouchedAbsent(log[..a], key);
      ApplyAt(LogState(log[..a]), map[], log[a], key);
    }
  }

  lemma {:induction false} VersionTouched(log: seq<Bytes>, key: Bytes)
    ensures Version(log, key) > 0 <==> Touched(log, key)
  {
    hide Touches;
    if log != [] {
      var a := |log| - 1;
      assert log[..a + 1] == log;
      TouchedStep(log, a, key);
      VersionTouched(log[..a], key);
    }
  }

  lemma VersionStep(log: seq<Bytes>, a: nat, key: Bytes)
    requires a < |log|
    ensures Version(log[..a + 1], key) == if Touches(log[a], key) then a + 1 else Version(log[..a], key)
  {
    hide Touches;
    assert log[..a + 1][..a] == log[..a];
  }

  lemma {:induction false} VersionGrows(log: seq<Bytes>, a: nat, b: nat, key: Bytes)
    requires a <= b <= |log|
    ensures Version(log[..a], key) <= Version(log[..b], key)
    decreases b - a
  {
    hide Touches, Version;
    if a < b {
      VersionGrows(log, a, b - 1, key);
      VersionStep(log, b - 1, key);
    }
  }

  // ----- a state machine that has applied a entries on top of a database that had already persisted hi -----

  /** The last entry on key is one whose local apply failed. */
  ghost predicate Missing(log: seq<Bytes>, missed: set<nat>, key: Bytes)
  {
    Version(log, key) > 0 && Version(log, key) - 1 in missed
  }

  /** m shows prefix a of the log on every key whose last write in it did not fail locally; what else it holds comes
      from that prefix or from entries before hi. */
  ghost predicate Reflects(m: map<Bytes, Bytes>, log: seq<Bytes>, a: nat, hi: nat, missed: set<nat>)
  {
    && a <= |log| && hi <= |log| && (forall p :: p in missed ==> p < a)
    && (forall key :: Touched(log[..a], key) && !Missing(log[..a], missed, key) ==> SameAt(m, LogState(log[..a]), key))
    && (forall key :: key in m ==> Touched(log[..a], key) || Touched(log[..hi], key))
  }

  lemma ReflectsEmpty(log: seq<Bytes>)
    ensures Reflects(map[], log, 0, 0, {})
  {
    hide Touches;
    assert log[..0] == [];
  }

  lemma ReflectsApply(m: map<Bytes, Bytes>, log: seq<Bytes>, a: nat, hi: nat, missed: set<nat>)
    requires Reflects(m, log, a, hi, missed) && a < |log|
    ensures Reflects(FlatApply(m, log[a]), log, a + 1, hi, missed)
  {
    hide Touches, FlatApply, Touched, ApplyAll;
    var s := LogState(log[..a]);
    ApplyAllStep(map[], log, a);
    forall key
      ensures Touched(log[..a + 1], key) && !Missing(log[..a + 1], missed, key)
              ==> SameAt(FlatApply(m, log[a]), LogState(log[..a + 1]), key)
      ensures key in FlatApply(m, log[a]) ==> Touched(log[..a + 1], key) || Touched(log[..hi], key) {
      TouchedStep(log, a, key);
      VersionStep(log, a, key);
      ApplyAt(m, s, log[a], key);
      ApplyAt(s, m, log[a], key);
    }
  }

  /** An apply that failed may or may not have taken effect; its entry is missed. */
  lemma ReflectsMiss(m: map<Bytes, Bytes>, m': map<Bytes, Bytes>, log: seq<Bytes>, a: nat, hi: nat, missed: set<nat>)
    requires Reflects(m, log, a, hi, missed) && a < |log| && (m' == m || m' == FlatApply(m, log[a]))
    ensures Reflects(m', log, a + 1, hi, missed + {a})
  {
    hide Touches, FlatApply, Touched, ApplyAll;
    var s := LogState(log[..a]);
    ApplyAllStep(map[], log, a);
    forall key
      ensures Touched(log[..a + 1], key) && !Missing(log[..a + 1], missed + {a}, key) ==>
              SameAt(m', LogState(log[..a + 1]), key)
      ensures key in m' ==> Touched(log[..a + 1], key) || Touched(log[..hi], key) {
      TouchedStep(log, a, key);
      VersionStep(log, a, key);
      ApplyAt(m, s, log[a], key);
      ApplyAt(s, m, log[a], key);
    }
  }

  /** Starting over from entry 0 on what is there. */
  lemma ReflectsRestart(m: map<Bytes, Bytes>, log: seq<Bytes>, a: nat, hi: nat, missed: set<nat>)
    requires Reflects(m, log, a, hi, missed)
    ensures Reflects(m, log, 0, if a > hi then a else hi, {})
  {
    hide Touches, ApplyAll, Missing;
    var top := if a > hi then a else hi;
    assert log[..0] == [];
    forall key | key in m ensures Touched(log[..top], key) {
      if Touched(log[..a], key) {
        TouchedPrefix(log, a, top, key);
      } else {
        TouchedPrefix(log, hi, top, key);
      }
    }
  }

  lemma ReflectsLonger(m: map<Bytes, Bytes>, log: seq<Bytes>, a: nat, hi: nat, missed: set<nat>, data: Bytes)
    requires Reflects(m, log, a, hi, missed)
    ensures Reflects(m, log + [data], a, hi, missed)
  {
    assert (log + [data])[..a] == log[..a] && (log + [data])[..hi] == log[..hi];
  }

  lemma SameEverywhere(m: map<Bytes, Bytes>, n: map<Bytes, Bytes>)
    requires forall key :: SameAt(m, n, key)
    ensures m == n
  {
    forall key ensures key in m <==> key in n
               ensures key in m && key in n ==> m[key] == n[key] {
      assert SameAt(m, n, key);
    }
  }

  /** Once everything that had been persisted has been applied again, the state is the log's, except on keys whose last
      entry failed locally. */
  lemma ReflectsCaughtUp(m: map<Bytes, Bytes>, log: seq<Bytes>, a: nat, hi: nat, missed: set<nat>)
    requires Reflects(m, log, a, hi, missed) && hi <= a
    ensures forall key :: !Missing(log[..a], missed, key) ==> SameAt(m, LogState(log[..a]), key)
    ensures missed == {} ==> m == LogState(log[..a])
  {
    hide Touches, Touched, ApplyAll, Version;
    forall key | !Missing(log[..a], missed, key) ensures SameAt(m, LogState(log[..a]), key) {
      if !Touched(log[..a], key) {
        UntouchedAbsent(log[..a], key);
        if key in m {
          TouchedPrefix(log, hi, a, key);
        }
      }
    }
    if missed == {} {
      SameEverywhere(m, LogState(log[..a]));
    }
  }

  lemma {:induction false} ReflectsApplyAll(m: map<Bytes, Bytes>, log: seq<Bytes>, a: nat, hi: nat, b: nat)
    requires Reflects(m, log, a, hi, {}) && a <= b <= |log|
    ensures Reflects(ApplyAll(m, log[a..b]), log, b, hi, {})
    decreases b - a
  {
    hide FlatApply, Reflects;
    if a == b {
      assert log[a..b] == [];
    } else {
      ReflectsApplyAll(m, log, a, hi, b - 1);
      assert log[a..b][..b - 1 - a] == log[a..b - 1];
      ReflectsApply(ApplyAll(m, log[a..b - 1]), log, b - 1, hi, {});
    }
  }

  lemma LogStateReflects(log: seq<Bytes>, m: nat)
    requires m <= |log|
    ensures Reflects(LogState(log[..m]), log, m, m, {})
  {
    hide FlatApply, Reflects;
    ReflectsEmpty(log);
    ReflectsApplyAll(map[], log, 0, 0, m);
    assert log[0..m] == log[..m];
    WeakenHi(LogState(log[..m]), log, m, 0);
  }

  lemma WeakenHi(m: map<Bytes, Bytes>, log: seq<Bytes>, a: nat, hi: nat)
    requires Reflects(m, log, a, hi, {}) && hi <= a
    ensures Reflects(m, log, a, a, {})
  {
    hide Touches, ApplyAll, Missing;
    forall key | key in m ensures Touched(log[..a], key) {
      if !Touched(log[..a], key) {
        TouchedPrefix(log, hi, a, key);
      }
    }
  }

  /** Re-applying a prefix on top of a database that had persisted a shorter one gives the prefix's state. */
  lemma ReplayConverges(log: seq<Bytes>, m: nat, n: nat)
    requires m <= n <= |log|
    ensures ApplyAll(LogState(log[..m]), log[..n]) == LogState(log[..n])
  {
    hide Reflects, ApplyAll;
    LogStateReflects(log, m);
    ReflectsRestart(LogState(log[..m]), log, m, m, {});
    ReflectsApplyAll(LogState(log[..m]), log, 0, m, n);
    assert log[0..n] == log[..n];
    ReflectsCaughtUp(ApplyAll(LogState(log[..m]), log[..n]), log, n, m, {});
  }

  lemma {:induction false} ApplyAllSplit(m: map<Bytes, Bytes>, log: seq<Bytes>, i: nat)
    requires i <= |log|
    ensures ApplyAll(ApplyAll(m, log[..i]), log[i..]) == ApplyAll(m, log)
  {
    hide FlatApply;
    var n := |log| - 1;
    if i == |log| {
      assert log[..i] == log && log[i..] == [];
    } else {
      assert log[..n][..i] == log[..i] && log[..n][i..] == log[i..][..n - i];
      ApplyAllSplit(m, log[..n], i);
    }
  }

  lemma {:induction false} VersionSees(log: seq<Bytes>, w: nat, key: Bytes)
    requires w < |log| && Touches(log[w], key)
    ensures w < Version(log, key) && Touched(log, key)
  {
    hide Touches;
    if w < |log| - 1 && !Touches(log[|log| - 1], key) {
      assert log[..|log| - 1][w] == log[w];
      VersionSees(log[..|log| - 1], w, key);
    }
  }
}
