/** calculateScore: the weighted count of a layout's violations. */
module Scoring {
  import opened LayoutTypes

  /** What one violation costs: connectivity errors most, then out-of-bounds
      placements, then overlaps; every other kind costs 2. */
  function Weight(k: ViolationKind): nat {
    match k
    case Overlap => 5
    case ConnectivityError => 10
    case OutOfBounds => 8
    case _ => 2
  }

  /** `violations.reduce((acc, v) => acc + weight, 0)`, a left fold. */
  function Score(vs: seq<Violation>): nat
    decreases |vs|
  {
    if |vs| == 0 then 0 else Score(vs[..|vs| - 1]) + Weight(vs[|vs| - 1].kind)
  }

  /** The fold runs left to right, so splitting the list splits the sum. */
  lemma {:induction false} ScoreAppend(a: seq<Violation>, b: seq<Violation>)
    ensures Score(a + b) == Score(a) + Score(b)
    decreases |b|
  {
    if |b| == 0 {
      assert a + b == a;
    } else {
      assert (a + b)[..|a + b| - 1] == a + b[..|b| - 1];
      ScoreAppend(a, b[..|b| - 1]);
    }
  }

  /** Every violation costs between 2 and 10. */
  lemma {:induction false} ScoreBounds(vs: seq<Violation>)
    ensures 2 * |vs| <= Score(vs) <= 10 * |vs|
    decreases |vs|
  {
    if |vs| > 0 {
      ScoreBounds(vs[..|vs| - 1]);
    }
  }

  /** A score of zero means no violation at all. */
  lemma ScoreZeroIffEmpty(vs: seq<Violation>)
    ensures Score(vs) == 0 <==> |vs| == 0
  {
    ScoreBounds(vs);
  }

  /** The weights rank connectivity above out-of-bounds above overlap above
      the rest. */
  lemma WeightOrder(k: ViolationKind)
    requires k !in {Overlap, ConnectivityError, OutOfBounds}
    ensures Weight(ConnectivityError) > Weight(OutOfBounds) > Weight(Overlap) > Weight(k)
  {
  }

  /** The score only depends on how many violations of each kind there are:
      swapping two violations keeps it. */
  lemma ScoreSwap(vs: seq<Violation>, i: nat, j: nat)
    requires i < j < |vs|
    ensures Score(vs[i := vs[j]][j := vs[i]]) == Score(vs)
  {
    var ws := vs[i := vs[j]][j := vs[i]];
    assert vs == vs[..i] + [vs[i]] + vs[i + 1..j] + [vs[j]] + vs[j + 1..];
    assert ws == vs[..i] + [vs[j]] + vs[i + 1..j] + [vs[i]] + vs[j + 1..];
    ScoreAppend(vs[..i] + [vs[i]] + vs[i + 1..j] + [vs[j]], vs[j + 1..]);
    ScoreAppend(vs[..i] + [vs[i]] + vs[i + 1..j], [vs[j]]);
    ScoreAppend(vs[..i] + [vs[i]], vs[i + 1..j]);
    ScoreAppend(vs[..i], [vs[i]]);
    ScoreAppend(vs[..i] + [vs[j]] + vs[i + 1..j] + [vs[i]], vs[j + 1..]);
    ScoreAppend(vs[..i] + [vs[j]] + vs[i + 1..j], [vs[i]]);
    ScoreAppend(vs[..i] + [vs[j]], vs[i + 1..j]);
    ScoreAppend(vs[..i], [vs[j]]);
    assert Score([vs[i]]) == Weight(vs[i].kind);
    assert Score([vs[j]]) == Weight(vs[j].kind);
  }
}
