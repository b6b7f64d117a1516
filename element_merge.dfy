/** mergeLayoutElements: folding a corrector's element list into the current
    one through an insertion-ordered map keyed by id. */
module ElementMerge {
  import opened LayoutTypes
  import opened Geometry

  // A JavaScript Map from ids to elements in which every entry's element
  // carries its key as its id (true of every map built here) is kept as the
  // list of its values in key insertion order, `Array.from(map.values())`.
  // Its keys are then the ids of that list, and they are distinct.

  /** The position of key `k`, if the map has it (`map.has`, `map.get`). */
  function Find(m: seq<Element>, k: string): (r: Option<nat>)
    ensures r.Some? ==> r.value < |m| && m[r.value].id == k
    ensures r.None? ==> forall i :: 0 <= i < |m| ==> m[i].id != k
    decreases |m|
  {
    if |m| == 0 then None
    else if m[|m| - 1].id == k then Some(|m| - 1)
    else Find(m[..|m| - 1], k)
  }

  /** With distinct keys, the position of a key is the one position holding it. */
  lemma FindUnique(m: seq<Element>, k: nat)
    requires UniqueIds(m) && k < |m|
    ensures Find(m, m[k].id) == Some(k)
  {
  }

  /** The keys of `m` are, in order, the first keys of `r`. */
  predicate KeepsKeys(m: seq<Element>, r: seq<Element>) {
    |m| <= |r| && forall j :: 0 <= j < |m| ==> r[j].id == m[j].id
  }

  /** `map.set(v.id, v)`: an existing key keeps its position and gets the new
      entry; a new key goes last; every other entry stays as it was. */
  function Put(m: seq<Element>, v: Element): (r: seq<Element>)
    ensures (UniqueIds(m) ==> UniqueIds(r)) && KeepsKeys(m, r)
    ensures Find(m, v.id).Some? ==> |r| == |m| && r[Find(m, v.id).value] == v
    ensures Find(m, v.id).None? ==> |r| == |m| + 1 && r[|m|] == v
    ensures forall j :: 0 <= j < |m| && m[j].id != v.id ==> r[j] == m[j]
  {
    match Find(m, v.id)
    case Some(i) => m[i := v]
    case None => m + [v]
  }

  /** `new Map(original.map(el => [el.id, el]))`: a repeated id keeps its first
      position and its last element. */
  function FromList(es: seq<Element>): (r: seq<Element>)
    ensures UniqueIds(r)
    decreases |es|
  {
    if |es| == 0 then []
    else Put(FromList(es[..|es| - 1]), es[|es| - 1])
  }

  /** `{...a, ...b}` on two elements: every key the update carries wins; the
      optional ones it lacks are kept from the existing element. */
  function Overlay(existing: Element, update: Element): (r: Element)
    ensures r.id == update.id && r.kind == update.kind
    ensures RectOf(r) == RectOf(update)
    ensures r.rotation == (if update.rotation.Absent? then existing.rotation else update.rotation)
    ensures r.caption == (if update.caption.Absent? then existing.caption else update.caption)
    ensures r.subType == (if update.subType.Absent? then existing.subType else update.subType)
  {
    Element(update.id, update.kind, update.x, update.y, update.width, update.height,
            OverProp(existing.rotation, update.rotation),
            OverProp(existing.caption, update.caption),
            OverProp(existing.subType, update.subType))
  }

  function OverProp<T>(existing: Prop<T>, update: Prop<T>): Prop<T> {
    if update.Absent? then existing else update
  }

  /** The id a fresh element gets: `el_` followed by a random token. */
  function FreshId(token: nat -> string, i: nat): string { "el_" + token(i) }

  /** The body of `updates.forEach` for update number i: a non-empty id
      already present is overlaid on its entry; otherwise the update goes in
      under its own id, or under a fresh one when its id is empty. */
  function ApplyUpdate(m: seq<Element>, u: Element, token: nat -> string, i: nat): (r: seq<Element>)
    ensures UniqueIds(m) ==> UniqueIds(r)
    ensures KeepsKeys(m, r)
    ensures u.id != "" && Find(m, u.id).Some? ==> |r| == |m|
  {
    var found := Find(m, u.id);
    if u.id != "" && found.Some? then Put(m, Overlay(m[found.value], u))
    else
      var newId := if u.id != "" then u.id else FreshId(token, i);
      Put(m, u.(id := newId))
  }

  /** What one update does to the map, as a value that the fold below
      takes; the lemmas about the fold only use what it is said to keep. */
  type Step = (seq<Element>, Element, nat) -> seq<Element>

  function UpdateStep(token: nat -> string): Step {
    (m: seq<Element>, u: Element, i: nat) => ApplyUpdate(m, u, token, i)
  }

  /** The map after the first n updates. */
  function ApplyUpdates(m: seq<Element>, updates: seq<Element>, step: Step, n: nat): seq<Element>
    requires n <= |updates|
    decreases n
  {
    if n == 0 then m else step(ApplyUpdates(m, updates, step, n - 1), updates[n - 1], n - 1)
  }

  function Merge(original: seq<Element>, updates: seq<Element>, token: nat -> string): seq<Element> {
    ApplyUpdates(FromList(original), updates, UpdateStep(token), |updates|)
  }

  /** mergeLayoutElements, as the source runs it: a `forEach` over the
      updates, setting entries of the map. */
  method MergeLayoutElements(original: seq<Element>, updates: seq<Element>, token: nat -> string)
    returns (merged: seq<Element>)
    ensures merged == Merge(original, updates, token)
    ensures UniqueIds(merged)
  {
    var elementMap := FromList(original);
    ghost var start := elementMap;
    var i := 0;
    while i < |updates|
      invariant 0 <= i <= |updates|
      invariant elementMap == ApplyUpdates(start, updates, UpdateStep(token), i)
    {
      StepUnfolds(start, updates, token, i);
      elementMap := MergeOne(elementMap, updates[i], token, i);
      i := i + 1;
    }
    merged := elementMap;
    UpdatesKeepUnique(start, updates, token, |updates|);
  }

  lemma StepUnfolds(m: seq<Element>, updates: seq<Element>, token: nat -> string, i: nat)
    requires i < |updates|
    ensures ApplyUpdates(m, updates, UpdateStep(token), i + 1)
         == ApplyUpdate(ApplyUpdates(m, updates, UpdateStep(token), i), updates[i], token, i)
  {
  }

  /** The `forEach` callback for update number i. */
  method MergeOne(elementMap: seq<Element>, update: Element, token: nat -> string, i: nat)
    returns (next: seq<Element>)
    ensures next == ApplyUpdate(elementMap, update, token, i)
  {
    var found := Find(elementMap, update.id);
    if update.id != "" && found.Some? {
      var existing := elementMap[found.value];
      next := Put(elementMap, Overlay(existing, update));
    } else {
      var newId := if update.id != "" then update.id else FreshId(token, i);
      next := Put(elementMap, update.(id := newId));
    }
  }

  // ---------------------------------------------------------------------
  // Properties

  /** The map built from a list with distinct ids holds the list in order. */
  lemma {:induction false} FromListUnique(es: seq<Element>)
    requires UniqueIds(es)
    ensures FromList(es) == es
    decreases |es|
  {
    if |es| > 0 {
      var init := es[..|es| - 1];
      var last := es[|es| - 1];
      FromListUnique(init);
      assert Find(init, last.id).None? by {
        forall i | 0 <= i < |init| ensures init[i].id != last.id {
          assert init[i] == es[i];
        }
      }
      assert init + [last] == es;
    }
  }

  /** Merging no updates returns the original list when its ids are distinct. */
  lemma MergeNoUpdates(original: seq<Element>, token: nat -> string)
    requires UniqueIds(original)
    ensures Merge(original, [], token) == original
  {
    FromListUnique(original);
  }

  /** A fold of steps that each keep ids distinct keeps them distinct. */
  lemma {:induction false} FoldKeepsUnique(m: seq<Element>, updates: seq<Element>, step: Step, n: nat)
    requires n <= |updates| && UniqueIds(m)
    requires forall s, u, i :: UniqueIds(s) ==> UniqueIds(step(s, u, i))
    ensures UniqueIds(ApplyUpdates(m, updates, step, n))
    decreases n
  {
    if n > 0 {
      FoldKeepsUnique(m, updates, step, n - 1);
    }
  }

  /** Updating a map with distinct keys leaves its keys distinct. */
  lemma UpdatesKeepUnique(m: seq<Element>, updates: seq<Element>, token: nat -> string, n: nat)
    requires n <= |updates| && UniqueIds(m)
    ensures UniqueIds(ApplyUpdates(m, updates, UpdateStep(token), n))
  {
    var step := UpdateStep(token);
    forall s, u, i | UniqueIds(s) ensures UniqueIds(step(s, u, i)) {
      assert step(s, u, i) == ApplyUpdate(s, u, token, i);
    }
    FoldKeepsUnique(m, updates, step, n);
  }

  /** Keeping keys, read on the key lists: the old keys are a prefix of the new. */
  lemma KeepsKeysIds(m: seq<Element>, r: seq<Element>)
    requires KeepsKeys(m, r)
    ensures Ids(r)[..|m|] == Ids(m)
  {
    assert forall j :: 0 <= j < |m| ==> Ids(r)[..|m|][j] == Ids(m)[j];
  }

  lemma KeepsKeysTrans(a: seq<Element>, b: seq<Element>, c: seq<Element>)
    requires KeepsKeys(a, b) && KeepsKeys(b, c)
    ensures KeepsKeys(a, c)
  {
  }

  /** A fold of steps that each keep the keys keeps the keys. */
  lemma {:induction false} FoldKeepsKeys(m: seq<Element>, updates: seq<Element>, step: Step, n: nat)
    requires n <= |updates|
    requires forall s, u, i :: KeepsKeys(s, step(s, u, i))
    ensures KeepsKeys(m, ApplyUpdates(m, updates, step, n))
    decreases n
  {
    if n > 0 {
      FoldKeepsKeys(m, updates, step, n - 1);
      var prev := ApplyUpdates(m, updates, step, n - 1);
      KeepsKeysTrans(m, prev, step(prev, updates[n - 1], n - 1));
    }
  }

  /** Entries are only overwritten in place or appended: the keys before the
      updates stay the first keys after them. */
  lemma ApplyUpdatesKeepsKeys(m: seq<Element>, updates: seq<Element>, token: nat -> string, n: nat)
    requires n <= |updates|
    ensures KeepsKeys(m, ApplyUpdates(m, updates, UpdateStep(token), n))
  {
    var step := UpdateStep(token);
    forall s, u, i ensures KeepsKeys(s, step(s, u, i)) {
      assert step(s, u, i) == ApplyUpdate(s, u, token, i);
    }
    FoldKeepsKeys(m, updates, step, n);
  }

  /** The merged list has distinct ids and begins with the original's ids,
      in their original order. */
  lemma MergeKeepsOriginalOrder(original: seq<Element>, updates: seq<Element>, token: nat -> string)
    requires UniqueIds(original)
    ensures var r := Merge(original, updates, token);
      && UniqueIds(r)
      && |original| <= |r|
      && Ids(r)[..|original|] == Ids(original)
  {
    FromListUnique(original);
    ApplyUpdatesKeepsKeys(original, updates, token, |updates|);
    UpdatesKeepUnique(original, updates, token, |updates|);
    KeepsKeysIds(original, Merge(original, updates, token));
  }

  /** A fold of steps that keep the keys, and the length when the update's
      id is a non-empty key already present, keeps the keys and the length
      when every update's id is one of the starting keys. */
  lemma {:induction false} FoldKnownUpdates(m: seq<Element>, updates: seq<Element>, step: Step, n: nat)
    requires n <= |updates|
    requires forall j :: 0 <= j < |updates| ==> updates[j].id != "" && updates[j].id in Ids(m)
    requires forall s, u, i :: KeepsKeys(s, step(s, u, i))
    requires forall s, u: Element, i :: u.id != "" && Find(s, u.id).Some? ==> |step(s, u, i)| == |s|
    ensures var r := ApplyUpdates(m, updates, step, n);
      |r| == |m| && KeepsKeys(m, r)
    decreases n
  {
    if n > 0 {
      FoldKnownUpdates(m, updates, step, n - 1);
      var prev := ApplyUpdates(m, updates, step, n - 1);
      var u := updates[n - 1];
      var k :| 0 <= k < |m| && Ids(m)[k] == u.id;
      assert prev[k].id == u.id;
      assert Find(prev, u.id).Some?;
      KeepsKeysTrans(m, prev, step(prev, u, n - 1));
    }
  }

  /** Updates whose ids are all non-empty and already present only overwrite
      entries: the keys stay as they were. */
  lemma ApplyKnownUpdates(m: seq<Element>, updates: seq<Element>, token: nat -> string)
    requires forall u :: u in updates ==> u.id != "" && u.id in Ids(m)
    ensures Ids(ApplyUpdates(m, updates, UpdateStep(token), |updates|)) == Ids(m)
  {
    var step := UpdateStep(token);
    forall s, u, i ensures KeepsKeys(s, step(s, u, i)) {
      assert step(s, u, i) == ApplyUpdate(s, u, token, i);
    }
    forall s, u: Element, i | u.id != "" && Find(s, u.id).Some? ensures |step(s, u, i)| == |s| {
      assert step(s, u, i) == ApplyUpdate(s, u, token, i);
    }
    forall j | 0 <= j < |updates| ensures updates[j].id != "" && updates[j].id in Ids(m) {
      assert updates[j] in updates;
    }
    FoldKnownUpdates(m, updates, step, |updates|);
    var r := ApplyUpdates(m, updates, step, |updates|);
    KeepsKeysIds(m, r);
    assert Ids(r)[..|m|] == Ids(r);
  }

  lemma MergeKnownIds(original: seq<Element>, updates: seq<Element>, token: nat -> string)
    requires UniqueIds(original)
    requires forall u :: u in updates ==> u.id != "" && u.id in Ids(original)
    ensures Ids(Merge(original, updates, token)) == Ids(original)
  {
    FromListUnique(original);
    ApplyKnownUpdates(original, updates, token);
  }

  /** A single update matching the element at position k is overlaid on it
      in place; every other element is left as it is. */
  lemma MergeOverlaysMatch(original: seq<Element>, u: Element, token: nat -> string, k: nat)
    requires UniqueIds(original) && k < |original|
    requires u.id != "" && u.id == original[k].id
    ensures Merge(original, [u], token) == original[k := Overlay(original[k], u)]
  {
    FromListUnique(original);
    StepUnfolds(original, [u], token, 0);
    FindUnique(original, k);
    var v := Overlay(original[k], u);
    assert ApplyUpdate(original, u, token, 0) == Put(original, v);
    assert Find(original, v.id) == Some(k);
  }

  /** A single update with an unknown id, or with an empty id whose fresh id
      is unknown, is appended after every original element. */
  lemma MergeAppendsUnknown(original: seq<Element>, u: Element, token: nat -> string)
    requires UniqueIds(original)
    requires if u.id != "" then u.id !in Ids(original) else FreshId(token, 0) !in Ids(original)
    ensures var newId := if u.id != "" then u.id else FreshId(token, 0);
      Merge(original, [u], token) == original + [u.(id := newId)]
  {
    FromListUnique(original);
    StepUnfolds(original, [u], token, 0);
    var newId := if u.id != "" then u.id else FreshId(token, 0);
    assert Find(original, newId).None? by {
      forall i | 0 <= i < |original| ensures original[i].id != newId {
        assert Ids(original)[i] == original[i].id;
      }
    }
  }
}
