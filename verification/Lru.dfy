// The name cache as a value: its entries in order of last touch, and what any run of touches keeps.
module Lru {
  import opened Records

  type Name = seq<byte>
  datatype Entry = Entry(name: Name, idx: int)

  ghost predicate Has(es: seq<Entry>, name: Name) {
    exists i :: 0 <= i < |es| && es[i].name == name
  }

  /** The place of a name, or |es| if it is not there. */
  ghost function Find(es: seq<Entry>, name: Name): (k: nat)
    ensures k <= |es|
    ensures k < |es| ==> es[k].name == name
    ensures forall i | 0 <= i < k :: es[i].name != name
  {
    if es == [] then 0 else if es[0].name == name then 0 else
    var k := Find(es[1..], name);
    assert forall i | 1 <= i < k + 1 :: es[i] == es[1..][i - 1];
    k + 1
  }

  /** Names are distinct, and the indices are distinct and below the number of entries. */
  ghost predicate Fine(es: seq<Entry>, max: nat) {
    && |es| <= max
    && (forall i | 0 <= i < |es| :: 0 <= es[i].idx < |es|)
    && (forall i, j | 0 <= i < j < |es| :: es[i].name != es[j].name)
    && (forall i, j | 0 <= i < j < |es| :: es[i].idx != es[j].idx)
  }

  ghost function ToEnd(es: seq<Entry>, k: nat): seq<Entry>
    requires k < |es|
  {
    es[..k] + es[k + 1..] + [es[k]]
  }

  /** One look at a name: a known one becomes the most recent; a new one gets a fresh index, or the
      index of the least recent entry once the cache is full. */
  ghost function Touch(es: seq<Entry>, max: nat, name: Name): seq<Entry>
    requires max > 0
  {
    var k := Find(es, name);
    if k < |es| then ToEnd(es, k)
    else if |es| < max then es + [Entry(name, |es|)]
    else es[1..] + [Entry(name, es[0].idx)]
  }

  lemma TouchNew(es: seq<Entry>, max: nat, name: Name)
    requires max > 0 && Find(es, name) == |es| <= max
    ensures |es| < max ==> Touch(es, max, name) == es + [Entry(name, |es|)]
    ensures |es| == max ==> Touch(es, max, name) == es[1..] + [Entry(name, es[0].idx)]
    ensures var z := Touch(es, max, name); z != [] && z[|z| - 1] == Entry(name, if |es| < max then |es| else es[0].idx)
  {}

  lemma TouchFine(es: seq<Entry>, max: nat, name: Name)
    requires max > 0 && Fine(es, max)
    ensures Fine(Touch(es, max, name), max)
  {
    var k, z := Find(es, name), Touch(es, max, name);
    if k < |es| {
      ToEndFine(es, k, max);
    }
  }

  lemma ToEndFine(es: seq<Entry>, k: nat, max: nat)
    requires Fine(es, max) && k < |es|
    ensures Fine(ToEnd(es, k), max)
  {
    var z := ToEnd(es, k);
    assert forall i | 0 <= i < |z| :: z[i] == es[if i < k then i else if i < |z| - 1 then i + 1 else k];
  }

  // ----- runs -----

  /** What can happen to the cache: a question names a host, or a packet for a mapped address comes. */
  datatype Op = Ask(name: Name) | Use(idx: int)

  ghost function FindIdx(es: seq<Entry>, idx: int): (k: nat)
    ensures k <= |es|
    ensures k < |es| ==> es[k].idx == idx
    ensures k == |es| ==> forall i | 0 <= i < |es| :: es[i].idx != idx
  {
    if es == [] then 0 else if es[0].idx == idx then 0 else
    var k := FindIdx(es[1..], idx);
    assert k == |es[1..]| ==> forall i | 1 <= i < |es| :: es[i] == es[1..][i - 1];
    k + 1
  }

  ghost function Step(es: seq<Entry>, max: nat, op: Op): seq<Entry>
    requires max > 0
  {
    match op
    case Ask(name) => Touch(es, max, name)
    case Use(idx) => var k := FindIdx(es, idx); if k < |es| then ToEnd(es, k) else es
  }

  /** The names that an operation touches. */
  ghost function Touched(es: seq<Entry>, op: Op): set<Name> {
    match op
    case Ask(name) => {name}
    case Use(idx) => var k := FindIdx(es, idx); if k < |es| then {es[k].name} else {}
  }

  ghost function Run(es: seq<Entry>, max: nat, ops: seq<Op>): seq<Entry>
    requires max > 0
    decreases |ops|
  {
    if ops == [] then es else Run(Step(es, max, ops[0]), max, ops[1..])
  }

  ghost function TouchedBy(es: seq<Entry>, max: nat, ops: seq<Op>): set<Name>
    requires max > 0
    decreases |ops|
  {
    if ops == [] then {} else Touched(es, ops[0]) + TouchedBy(Step(es, max, ops[0]), max, ops[1..])
  }

  lemma StepFine(es: seq<Entry>, max: nat, op: Op)
    requires max > 0 && Fine(es, max)
    ensures Fine(Step(es, max, op), max)
  {
    match op
    case Ask(name) => TouchFine(es, max, name);
    case Use(idx) => if FindIdx(es, idx) < |es| { ToEndFine(es, FindIdx(es, idx), max); }
  }

  lemma {:induction false} RunFine(es: seq<Entry>, max: nat, ops: seq<Op>)
    requires max > 0 && Fine(es, max)
    ensures Fine(Run(es, max, ops), max)
    decreases |ops|
  {
    if ops != [] {
      StepFine(es, max, ops[0]);
      RunFine(Step(es, max, ops[0]), max, ops[1..]);
    }
  }

  /** Every entry behind `e` has a name in D. */
  ghost predicate NewerIn(es: seq<Entry>, e: Entry, D: set<Name>) {
    exists k :: 0 <= k < |es| && es[k] == e && forall i | k < i < |es| :: es[i].name in D && es[i].name != e.name
  }

  lemma {:induction false} DistinctNames(es: seq<Entry>, D: set<Name>)
    requires forall i, j | 0 <= i < j < |es| :: es[i].name != es[j].name
    requires forall i | 0 <= i < |es| :: es[i].name in D
    ensures |es| <= |D|
  {
    if es != [] {
      var rest := D - {es[0].name};
      DistinctNames(es[1..], rest);
      assert |rest| == |D| - 1;
    }
  }

  /** One operation keeps an entry as long as fewer than max names have been touched since it was. */
  lemma StepKeeps(es: seq<Entry>, max: nat, op: Op, e: Entry, D: set<Name>)
    requires max > 0 && Fine(es, max) && NewerIn(es, e, D)
    requires var D' := D + (Touched(es, op) - {e.name}); e.name !in D && |D'| < max
    ensures NewerIn(Step(es, max, op), e, D + (Touched(es, op) - {e.name}))
  {
    var k :| 0 <= k < |es| && es[k] == e && forall i | k < i < |es| :: es[i].name in D && es[i].name != e.name;
    var D' := D + (Touched(es, op) - {e.name});
    match op
    case Ask(name) => AskKeeps(es, max, name, e, k, D');
    case Use(idx) => if FindIdx(es, idx) < |es| { MovedKeeps(es, FindIdx(es, idx), k, e, D'); }
  }

  lemma AskKeeps(es: seq<Entry>, max: nat, name: Name, e: Entry, k: nat, D: set<Name>)
    requires max > 0 && Fine(es, max) && (name in D || name == e.name) && |D| < max
    requires k < |es| && es[k] == e && forall i | k < i < |es| :: es[i].name in D && es[i].name != e.name
    requires e.name !in D
    ensures NewerIn(Touch(es, max, name), e, D)
  {
    var j, z := Find(es, name), Touch(es, max, name);
    if j < |es| {
      MovedKeeps(es, j, k, e, D);
    } else if |es| < max {
      assert z[k] == e;
    } else {
      if k == 0 {
        TooMany(es, D, name);
      }
      assert z[k - 1] == e;
      assert forall i | k - 1 < i < |z| - 1 :: z[i] == es[i + 1];
    }
  }

  lemma TooMany(es: seq<Entry>, D: set<Name>, name: Name)
    requires es != [] && forall i, j | 0 <= i < j < |es| :: es[i].name != es[j].name
    requires name in D && forall i | 0 <= i < |es| :: es[i].name != name
    requires forall i | 0 < i < |es| :: es[i].name in D
    ensures |es| <= |D|
  {
    var z := es[1..];
    assert forall i | 0 <= i < |z| :: z[i] == es[i + 1];
    DistinctNames(z, D - {name});
  }

  lemma MovedKeeps(es: seq<Entry>, j: nat, k: nat, e: Entry, D: set<Name>)
    requires j < |es| && k < |es| && es[k] == e && forall i | k < i < |es| :: es[i].name in D && es[i].name != e.name
    requires j != k ==> es[j].name in D && es[j].name != e.name
    ensures NewerIn(ToEnd(es, j), e, D)
  {
    var z := ToEnd(es, j);
    var k' := if j == k then |z| - 1 else if j < k then k - 1 else k;
    assert forall i | 0 <= i < |z| - 1 :: z[i] == es[if i < j then i else i + 1];
    assert z[|z| - 1] == es[j];
    assert z[k'] == e;
  }

  lemma {:induction false} RunKeeps(es: seq<Entry>, max: nat, ops: seq<Op>, e: Entry, D: set<Name>)
    requires max > 0 && Fine(es, max) && NewerIn(es, e, D) && e.name !in D
    requires |D + (TouchedBy(es, max, ops) - {e.name})| < max
    ensures e in Run(es, max, ops)
    decreases |ops|
  {
    if ops != [] {
      var D' := D + (Touched(es, ops[0]) - {e.name});
      var es' := Step(es, max, ops[0]);
      GatherSets(D, Touched(es, ops[0]), TouchedBy(es', max, ops[1..]), {e.name});
      StepKeeps(es, max, ops[0], e, D);
      StepFine(es, max, ops[0]);
      RunKeeps(es', max, ops[1..], e, D');
    }
  }

  lemma GatherSets(D: set<Name>, a: set<Name>, b: set<Name>, n: set<Name>)
    ensures (D + (a - n)) + (b - n) == D + ((a + b) - n)
    ensures |D + (a - n)| <= |D + ((a + b) - n)|
  {
    assert (D + (a - n)) + (b - n) == D + ((a + b) - n);
    SubsetSize(D + (a - n), D + ((a + b) - n));
  }

  lemma SubsetSize(a: set<Name>, b: set<Name>)
    requires a <= b
    ensures |a| <= |b|
  {
    assert b == a + (b - a);
  }

  /** The promise to clients: once a name has been asked for, any run of questions and packets that
      touches fewer than max other names leaves it in the cache with the same index. */
  lemma NameKeepsIndex(es: seq<Entry>, max: nat, name: Name, ops: seq<Op>)
    requires max > 0 && Fine(es, max)
    requires var es' := Touch(es, max, name); |TouchedBy(es', max, ops) - {name}| < max
    ensures var es' := Touch(es, max, name);
      && es'[|es'| - 1].name == name
      && es'[|es'| - 1] in Run(es', max, ops)
  {
    var es' := Touch(es, max, name);
    var e := es'[|es'| - 1];
    TouchFine(es, max, name);
    LastIsNewest(es');
    assert {} + (TouchedBy(es', max, ops) - {name}) == TouchedBy(es', max, ops) - {name};
    RunKeeps(es', max, ops, e, {});
  }

  lemma LastIsNewest(es: seq<Entry>)
    requires es != []
    ensures NewerIn(es, es[|es| - 1], {})
  {
    var k := |es| - 1;
    assert 0 <= k < |es| && es[k] == es[|es| - 1];
  }

  // ----- the bound is sharp -----

  /** The names of the entries behind place k. */
  ghost function Behind(es: seq<Entry>, k: nat): set<Name> {
    set i | k < i < |es| :: es[i].name
  }

  lemma {:induction false} BehindSize(es: seq<Entry>, k: nat)
    requires k < |es|
    ensures |Behind(es, k)| < |es| - k
    decreases |es| - k
  {
    if k + 1 < |es| {
      BehindSize(es, k + 1);
      assert Behind(es, k) == Behind(es, k + 1) + {es[k + 1].name};
    } else {
      assert Behind(es, k) == {};
    }
  }

  lemma MovedBehind(es: seq<Entry>, j: nat, k: nat)
    requires j < |es| && k < |es| && j != k
    ensures var k' := if j < k then k - 1 else k;
      ToEnd(es, j)[k'] == es[k] && Behind(ToEnd(es, j), k') == Behind(es, k) + {es[j].name}
  {
    var z, k' := ToEnd(es, j), if j < k then k - 1 else k;
    forall i | k < i < |es| ensures es[i].name in Behind(z, k') {
      assert z[if i < j then i else if i == j then |z| - 1 else i - 1] == es[i];
    }
    assert z[|z| - 1] == es[j];
    assert forall i | k' < i < |z| - 1 :: z[i] == es[if i < j then i else i + 1];
  }

  lemma AddedBehind(es: seq<Entry>, new_: Entry, k: nat)
    requires k < |es|
    ensures Behind(es + [new_], k) == Behind(es, k) + {new_.name}
  {
    var z := es + [new_];
    forall i | k < i < |es| ensures es[i].name in Behind(z, k) { assert z[i] == es[i]; }
    assert z[|es|] == new_;
  }

  lemma DroppedBehind(es: seq<Entry>, k: nat)
    requires 0 < k < |es|
    ensures Behind(es[1..], k - 1) == Behind(es, k)
  {
    forall i | k < i < |es| ensures es[i].name in Behind(es[1..], k - 1) { assert es[1..][i - 1] == es[i]; }
  }

  lemma NewBehind(es: seq<Entry>, max: nat, name: Name, k: nat)
    requires max > 0 && Fine(es, max) && Find(es, name) == |es| && k < |es|
    ensures var z := Touch(es, max, name); var k' := if |es| < max then k else k - 1;
      if k' >= 0 then k' < |z| && z[k'] == es[k] && Behind(z, k') == Behind(es, k) + {name} else !Has(z, es[k].name)
  {
    if |es| < max {
      AddedBehind(es, Entry(name, |es|), k);
    } else if k > 0 {
      DroppedBehind(es, k);
      AddedBehind(es[1..], Entry(name, es[0].idx), k - 1);
    } else {
      var z := Touch(es, max, name);
      assert forall i | 0 <= i < |z| - 1 :: z[i] == es[i + 1];
    }
  }

  /** What an operation touches comes to stand behind a name that it leaves alone, or the name is gone. */
  lemma StepBehind(es: seq<Entry>, max: nat, op: Op, name: Name, k: nat) returns (k': nat)
    requires max > 0 && Fine(es, max) && k < |es| && es[k].name == name && name !in Touched(es, op)
    ensures var z := Step(es, max, op);
      Has(z, name) ==> k' < |z| && z[k'].name == name && Behind(z, k') == Behind(es, k) + Touched(es, op)
  {
    var j := match op case Ask(asked) => Find(es, asked) case Use(idx) => FindIdx(es, idx);
    k' := k;
    if j < |es| {
      MovedBehind(es, j, k);
      k' := if j < k then k - 1 else k;
    } else if op.Ask? {
      NewBehind(es, max, op.name, k);
      k' := if |es| == max && k > 0 then k - 1 else k;
    }
  }

  lemma {:induction false} AbsentStays(es: seq<Entry>, max: nat, name: Name, ops: seq<Op>)
    requires max > 0 && !Has(es, name) && name !in TouchedBy(es, max, ops)
    ensures !Has(Run(es, max, ops), name)
    decreases |ops|
  {
    if ops != [] {
      AbsentStep(es, max, name, ops[0]);
      AbsentStays(Step(es, max, ops[0]), max, name, ops[1..]);
    }
  }

  lemma AbsentStep(es: seq<Entry>, max: nat, name: Name, op: Op)
    requires max > 0 && !Has(es, name) && name !in Touched(es, op)
    ensures !Has(Step(es, max, op), name)
  {
    var z := Step(es, max, op);
    forall i | 0 <= i < |z| ensures z[i].name != name {
      assert z[i] in es || (op.Ask? && z[i].name == op.name);
    }
  }

  /** While a name that is not touched stays, everything that has been touched stands behind it. */
  lemma {:induction false} RunBehind(es: seq<Entry>, max: nat, name: Name, ops: seq<Op>, k: nat)
    requires max > 0 && Fine(es, max) && k < |es| && es[k].name == name && name !in TouchedBy(es, max, ops)
    ensures Has(Run(es, max, ops), name) ==> |Behind(es, k) + TouchedBy(es, max, ops)| < max
    decreases |ops|
  {
    if ops == [] {
      BehindSize(es, k);
      assert Behind(es, k) + {} == Behind(es, k);
    } else {
      var es' := Step(es, max, ops[0]);
      var k' := StepBehind(es, max, ops[0], name, k);
      StepFine(es, max, ops[0]);
      if Has(es', name) {
        RunBehind(es', max, name, ops[1..], k');
        assert Behind(es, k) + TouchedBy(es, max, ops) == Behind(es', k') + TouchedBy(es', max, ops[1..]);
      } else {
        AbsentStays(es', max, name, ops[1..]);
      }
    }
  }

  /** From every state, any run that touches max other names, and not the name itself, leaves the cache
      without the name. */
  lemma MaxOthersEvict(es: seq<Entry>, max: nat, name: Name, ops: seq<Op>)
    requires max > 0 && Fine(es, max) && name !in TouchedBy(es, max, ops) && |TouchedBy(es, max, ops)| >= max
    ensures !Has(Run(es, max, ops), name)
  {
    if Has(es, name) {
      var k :| 0 <= k < |es| && es[k].name == name;
      RunBehind(es, max, name, ops, k);
      SubsetSize(TouchedBy(es, max, ops), Behind(es, k) + TouchedBy(es, max, ops));
    } else {
      AbsentStays(es, max, name, ops);
    }
  }

  /** So a name that is not touched again stays exactly as long as fewer than max others have been. */
  lemma StaysExactly(es: seq<Entry>, max: nat, name: Name, ops: seq<Op>)
    requires max > 0 && Fine(es, max) && name !in TouchedBy(Touch(es, max, name), max, ops)
    ensures var es' := Touch(es, max, name); Has(Run(es', max, ops), name) <==> |TouchedBy(es', max, ops)| < max
  {
    var es' := Touch(es, max, name);
    TouchFine(es, max, name);
    if |TouchedBy(es', max, ops)| < max {
      assert TouchedBy(es', max, ops) - {name} == TouchedBy(es', max, ops);
      NameKeepsIndex(es, max, name, ops);
    } else {
      MaxOthersEvict(es', max, name, ops);
    }
  }
}
