/** The deterministic part of services/geminiService.ts: turning a model's raw
    answer into a layout, rounding coordinates, running the scene's passes,
    and the bounded validate-score-correct-merge repair loop. */
module GeminiService {
  import opened LayoutTypes
  import opened Seqs
  import opened ElementMerge
  import opened Scoring
  import opened SceneRegistry

  // ---------------------------------------------------------------------
  // mapToInternalLayout

  /** One element of a model's answer.  Every field may be missing; `null`
      and `undefined` behave alike here and are both None. */
  datatype RawElement = RawElement(
    id: Option<string>,
    t: Option<string>,
    kind: Option<string>,
    x: Option<real>,
    y: Option<real>,
    w: Option<real>,
    width: Option<real>,
    h: Option<real>,
    height: Option<real>,
    r: Option<real>,
    l: Option<string>)

  datatype RawLayout = RawLayout(width: Option<real>, height: Option<real>, elements: Option<seq<RawElement>>)

  const DEFAULT_WIDTH: real := 800.0
  const DEFAULT_HEIGHT: real := 600.0
  const DEFAULT_SIZE: real := 10.0

  /** `v || d` on a number: a missing value and 0 both give the default. */
  function OrNumber(v: Option<real>, d: real): real {
    if v.Some? && v.value != 0.0 then v.value else d
  }

  /** `v ?? d`: only a missing value gives the default. */
  function Coalesce(v: Option<real>, d: real): real {
    if v.Some? then v.value else d
  }

  /** `v || w` on strings: a missing or empty string gives way to `w`. */
  function OrString(v: Option<string>, w: Option<string>): Option<string> {
    if v.Some? && v.value != "" then v else w
  }

  /** One mapped element; `token` stands for the random part of a fresh id. */
  function MapElement(e: RawElement, token: string): Element {
    var kind := OrString(e.t, e.kind);
    Element(
      if e.id.Some? && e.id.value != "" then e.id.value else "el_" + token,
      if kind.Some? then kind.value else "",
      OrNumber(e.x, 0.0),
      OrNumber(e.y, 0.0),
      Coalesce(e.w, Coalesce(e.width, DEFAULT_SIZE)),
      Coalesce(e.h, Coalesce(e.height, DEFAULT_SIZE)),
      Defined(OrNumber(e.r, 0.0)),
      if e.l.Some? then Defined(e.l.value) else Undefined,
      Absent)
  }

  function MapToInternalLayout(raw: RawLayout, token: nat -> string): Layout {
    var es := if raw.elements.Some? then raw.elements.value else [];
    Layout(OrNumber(raw.width, DEFAULT_WIDTH), OrNumber(raw.height, DEFAULT_HEIGHT),
           seq(|es|, i requires 0 <= i < |es| => MapElement(es[i], token(i))))
  }

  /** The field rules of one mapped element, each stated as what the output
      field is in each case of its input: `id || fresh`, `t || type`,
      `x || 0`, `y || 0`, `w ?? width ?? 10`, `h ?? height ?? 10`,
      `r || 0` and the label as given. */
  ghost predicate MappedFields(e: RawElement, o: Element) {
    && o.id != ""
    && (e.id.Some? && e.id.value != "" ==> o.id == e.id.value)
    && (e.t.Some? && e.t.value != "" ==> o.kind == e.t.value)
    && (!(e.t.Some? && e.t.value != "") && e.kind.Some? ==> o.kind == e.kind.value)
    && (e.x.None? || e.x == Some(0.0) ==> o.x == 0.0)
    && (e.x.Some? && e.x.value != 0.0 ==> o.x == e.x.value)
    && (e.y.None? || e.y == Some(0.0) ==> o.y == 0.0)
    && (e.y.Some? && e.y.value != 0.0 ==> o.y == e.y.value)
    && (e.w.Some? ==> o.width == e.w.value)
    && (e.w.None? && e.width.Some? ==> o.width == e.width.value)
    && (e.w.None? && e.width.None? ==> o.width == 10.0)
    && (e.h.Some? ==> o.height == e.h.value)
    && (e.h.None? && e.height.Some? ==> o.height == e.height.value)
    && (e.h.None? && e.height.None? ==> o.height == 10.0)
    && (e.r.Some? && e.r.value != 0.0 ==> o.rotation == Defined(e.r.value))
    && (e.r.None? || e.r == Some(0.0) ==> o.rotation == Defined(0.0))
    && (e.l.Some? ==> o.caption == Defined(e.l.value))
    && (e.l.None? ==> o.caption == Undefined)
  }

  /** One raw element maps by the field rules; a missing or empty id is
      replaced by `el_` followed by the random token. */
  lemma MapElementFields(e: RawElement, token: string)
    ensures MappedFields(e, MapElement(e, token))
    ensures !(e.id.Some? && e.id.value != "") ==> MapElement(e, token).id == "el_" + token
  {
    var o := MapElement(e, token);
    if !(e.id.Some? && e.id.value != "") {
      assert |o.id| >= 3;
    }
  }

  /** The defaults: a missing or zero canvas size becomes 800 by 600; one
      element per raw element, in order, each mapped by the field rules. */
  lemma MapToInternalLayoutDefaults(raw: RawLayout, token: nat -> string)
    ensures var out := MapToInternalLayout(raw, token);
      && (raw.width.None? || raw.width == Some(0.0) ==> out.width == 800.0)
      && (raw.width.Some? && raw.width.value != 0.0 ==> out.width == raw.width.value)
      && (raw.height.None? || raw.height == Some(0.0) ==> out.height == 600.0)
      && (raw.height.Some? && raw.height.value != 0.0 ==> out.height == raw.height.value)
      && |out.elements| == (if raw.elements.Some? then |raw.elements.value| else 0)
      && forall i :: 0 <= i < |out.elements| ==> MappedFields(raw.elements.value[i], out.elements[i])
  {
    var out := MapToInternalLayout(raw, token);
    forall i | 0 <= i < |out.elements|
      ensures MappedFields(raw.elements.value[i], out.elements[i])
    {
      MapElementFields(raw.elements.value[i], token(i));
    }
  }

  // ---------------------------------------------------------------------
  // postProcessLayout

  /** Math.round: the nearest integer, halves rounded up. */
  function Round(x: real): real {
    (x + 0.5).Floor as real
  }

  lemma RoundIsNearest(x: real)
    ensures Round(x).Floor as real == Round(x)
    ensures -0.5 < Round(x) - x <= 0.5
  {
  }

  lemma RoundOfInteger(n: int)
    ensures Round(n as real) == n as real
  {
    assert (n as real + 0.5).Floor == n;
  }

  function RoundElement(e: Element): Element {
    e.(x := Round(e.x), y := Round(e.y), width := Round(e.width), height := Round(e.height))
  }

  function PostProcessLayout(layout: Layout): Layout {
    var es := layout.elements;
    layout.(elements := seq(|es|, i requires 0 <= i < |es| => RoundElement(es[i])))
  }

  /** Rounding keeps the canvas, the number and order of elements and all
      but their position and size, each of which moves by at most a half to
      an integer. */
  lemma PostProcessLayoutRounds(layout: Layout)
    ensures var out := PostProcessLayout(layout); var es := layout.elements;
      && out.width == layout.width && out.height == layout.height
      && |out.elements| == |es|
      && forall i :: 0 <= i < |es| ==>
           var o := out.elements[i];
           && o == es[i].(x := o.x, y := o.y, width := o.width, height := o.height)
           && o.x.Floor as real == o.x && -0.5 < o.x - es[i].x <= 0.5
           && o.y.Floor as real == o.y && -0.5 < o.y - es[i].y <= 0.5
           && o.width.Floor as real == o.width && -0.5 < o.width - es[i].width <= 0.5
           && o.height.Floor as real == o.height && -0.5 < o.height - es[i].height <= 0.5
  {
    var out := PostProcessLayout(layout);
    forall i | 0 <= i < |layout.elements|
      ensures var o := out.elements[i]; var e := layout.elements[i];
           && o.x.Floor as real == o.x && -0.5 < o.x - e.x <= 0.5
           && o.y.Floor as real == o.y && -0.5 < o.y - e.y <= 0.5
           && o.width.Floor as real == o.width && -0.5 < o.width - e.width <= 0.5
           && o.height.Floor as real == o.height && -0.5 < o.height - e.height <= 0.5
    {
      var e := layout.elements[i];
      RoundIsNearest(e.x);
      RoundIsNearest(e.y);
      RoundIsNearest(e.width);
      RoundIsNearest(e.height);
    }
  }

  /** Rounding twice is rounding once. */
  lemma PostProcessLayoutIdempotent(layout: Layout)
    ensures PostProcessLayout(PostProcessLayout(layout)) == PostProcessLayout(layout)
  {
    var out := PostProcessLayout(layout);
    forall i | 0 <= i < |out.elements|
      ensures RoundElement(out.elements[i]) == out.elements[i]
    {
      var e := layout.elements[i];
      RoundOfInteger((e.x + 0.5).Floor);
      RoundOfInteger((e.y + 0.5).Floor);
      RoundOfInteger((e.width + 0.5).Floor);
      RoundOfInteger((e.height + 0.5).Floor);
    }
  }

  // ---------------------------------------------------------------------
  // The pass fold

  /** `for (const algo of scene.postProcessAlgorithms) layout = algo(layout)`,
      when the scene has a pass list at all. */
  method ApplyPostProcess(layout: Layout, algorithms: Option<seq<Pass>>) returns (out: Layout)
    ensures algorithms.None? ==> out == layout
    ensures algorithms.Some? ==> out == RunPasses(algorithms.value, layout)
    ensures out.width == layout.width && out.height == layout.height
  {
    out := layout;
    if algorithms.Some? {
      var passes := algorithms.value;
      var i := 0;
      while i < |passes|
        invariant 0 <= i <= |passes|
        invariant out == RunPasses(passes[..i], layout)
      {
        RunPassesSnoc(passes, i, layout);
        out := ApplyPass(passes[i], out);
        i := i + 1;
      }
      assert passes[..i] == passes;
      RunPassesKeepCanvas(passes, layout);
    }
  }

  // ---------------------------------------------------------------------
  // runIterativeFix

  /** What the loop reports through `onLog`. */
  datatype LogEvent =
    | Validated(pass: nat)
    | Stagnation(pass: nat, score: nat)
    | AutoFixing(pass: nat, maxPasses: int, score: nat)
    | FixFailed(pass: nat)

  /** What the loop is given: the validator, the model acting as corrector
      (None when the call, the parsing or the mapping of its answer throws),
      the random tokens of pass p, and the pass budget. */
  datatype Repair = Repair(
    validate: Layout -> seq<Violation>,
    corrector: (nat, RawLayout, seq<Violation>) -> Option<RawLayout>,
    tokens: (nat, nat) -> string,
    maxPasses: int)

  /** The compact layout sent to the corrector: ids, types, rounded
      positions and sizes, rotations. */
  function Simplify(layout: Layout): RawLayout {
    var es := layout.elements;
    RawLayout(Some(layout.width), Some(layout.height), Some(seq(|es|, i requires 0 <= i < |es| =>
      var e := es[i];
      RawElement(Some(e.id), if e.kind == "" then None else Some(e.kind), None,
                 Some(Round(e.x)), Some(Round(e.y)), Some(Round(e.width)), None, Some(Round(e.height)), None,
                 if e.rotation.Defined? then Some(e.rotation.value) else None, None))))
  }

  /** The random tokens of pass `pass`: the first ones go to the mapped
      elements, the ones after `skip` to the merge. */
  function PassTokens(c: Repair, pass: nat, skip: nat): nat -> string {
    (i: nat) => c.tokens(pass, skip + i)
  }

  /** One successful correction: the model's answer mapped and merged into
      the current elements; the canvas stays. */
  function Corrected(c: Repair, current: Layout, pass: nat, raw: RawLayout): Layout {
    var fixed := MapToInternalLayout(raw, PassTokens(c, pass, 0));
    current.(elements := Merge(current.elements, fixed.elements, PassTokens(c, pass, |fixed.elements|)))
  }

  /** The correction step as a function value. */
  function Advance(c: Repair): (Layout, nat, RawLayout) -> Layout {
    (current: Layout, pass: nat, raw: RawLayout) => Corrected(c, current, pass, raw)
  }

  /** The loop from pass `pass` on, `lastScore` None standing for Infinity:
      the layout it returns and the events it logs.  `advance` folds a
      correction into the current layout; the loop proper passes
      `Advance(c)`, and the facts about when the loop stops and how often
      it calls the corrector hold for any `advance`. */
  function Fix(c: Repair, advance: (Layout, nat, RawLayout) -> Layout, current: Layout, lastScore: Option<nat>, pass: nat): (Layout, seq<LogEvent>)
    decreases if pass <= c.maxPasses then c.maxPasses - pass + 1 else 0
  {
    if pass > c.maxPasses then (current, [])
    else
      var violations := c.validate(current);
      var score := Score(violations);
      if score == 0 then (current, [Validated(pass)])
      else if lastScore.Some? && score >= lastScore.value && pass > 1 then (current, [Stagnation(pass, score)])
      else match c.corrector(pass, Simplify(current), violations)
        case None => (current, [AutoFixing(pass, c.maxPasses, score), FixFailed(pass)])
        case Some(raw) =>
          var rest := Fix(c, advance, advance(current, pass, raw), Some(score), pass + 1);
          (rest.0, [AutoFixing(pass, c.maxPasses, score)] + rest.1)
  }

  /** runIterativeFix, as the source runs it: a `for` loop over the passes
      that breaks on a valid layout, on stagnation and on a failed fix. */
  method RunIterativeFix(layout: Layout, c: Repair) returns (result: Layout, log: seq<LogEvent>)
    ensures (result, log) == Fix(c, Advance(c), layout, None, 1)
    ensures result.width == layout.width && result.height == layout.height
  {
    var currentLayout := layout;
    var lastScore: Option<nat> := None;
    log := [];
    var pass := 1;
    assert log + Fix(c, Advance(c), currentLayout, lastScore, pass).1 == Fix(c, Advance(c), currentLayout, lastScore, pass).1;
    while pass <= c.maxPasses
      invariant pass >= 1
      invariant lastScore.None? <==> pass == 1
      invariant currentLayout.width == layout.width && currentLayout.height == layout.height
      invariant Fix(c, Advance(c), layout, None, 1) == (Fix(c, Advance(c), currentLayout, lastScore, pass).0, log + Fix(c, Advance(c), currentLayout, lastScore, pass).1)
      decreases c.maxPasses - pass + 1
    {
      ghost var log0 := log;
      var next, events, stop, score := FixPass(c, currentLayout, lastScore, pass);
      log := log + events;
      if stop {
        return currentLayout, log;
      }
      ghost var after := Fix(c, Advance(c), next, Some(score), pass + 1);
      assert log + after.1 == log0 + (events + after.1);
      currentLayout := next;
      lastScore := Some(score);
      pass := pass + 1;
    }
    assert Fix(c, Advance(c), currentLayout, lastScore, pass) == (currentLayout, []);
    assert log + [] == log;
    result := currentLayout;
  }

  /** One pass of the loop's body: validate and score; stop on a score of
      0 or on stagnation; otherwise ask the corrector and merge its answer,
      stopping when it fails. */
  method FixPass(c: Repair, currentLayout: Layout, lastScore: Option<nat>, pass: nat)
    returns (next: Layout, events: seq<LogEvent>, stop: bool, score: nat)
    requires 1 <= pass <= c.maxPasses
    ensures stop ==> Fix(c, Advance(c), currentLayout, lastScore, pass) == (currentLayout, events)
    ensures !stop ==> next.width == currentLayout.width && next.height == currentLayout.height
    ensures !stop ==> (Fix(c, Advance(c), currentLayout, lastScore, pass) ==
      (Fix(c, Advance(c), next, Some(score), pass + 1).0, events + Fix(c, Advance(c), next, Some(score), pass + 1).1))
  {
    next := currentLayout;
    var violations := c.validate(currentLayout);
    score := Score(violations);
    if score == 0 {
      return currentLayout, [Validated(pass)], true, score;
    }
    if lastScore.Some? && score >= lastScore.value && pass > 1 {
      return currentLayout, [Stagnation(pass, score)], true, score;
    }
    events := [AutoFixing(pass, c.maxPasses, score)];
    var simplified := Simplify(currentLayout);
    var response := c.corrector(pass, simplified, violations);
    if response.None? {
      assert events + [FixFailed(pass)] == [AutoFixing(pass, c.maxPasses, score), FixFailed(pass)];
      return currentLayout, events + [FixFailed(pass)], true, score;
    }
    var fixedLayout := MapToInternalLayout(response.value, PassTokens(c, pass, 0));
    var merged := MergeLayoutElements(currentLayout.elements, fixedLayout.elements,
                                      PassTokens(c, pass, |fixedLayout.elements|));
    next := currentLayout.(elements := merged);
    assert next == Corrected(c, currentLayout, pass, response.value);
    stop := false;
  }

  // ---------------------------------------------------------------------
  // Properties of the loop

  /** The loop never changes the canvas: corrections only replace elements. */
  lemma {:induction false} FixKeepsCanvas(c: Repair, current: Layout, lastScore: Option<nat>, pass: nat)
    ensures Fix(c, Advance(c), current, lastScore, pass).0.width == current.width
    ensures Fix(c, Advance(c), current, lastScore, pass).0.height == current.height
    decreases if pass <= c.maxPasses then c.maxPasses - pass + 1 else 0
  {
    if pass <= c.maxPasses {
      var violations := c.validate(current);
      var score := Score(violations);
      if score != 0 && !(lastScore.Some? && score >= lastScore.value && pass > 1) {
        var response := c.corrector(pass, Simplify(current), violations);
        if response.Some? {
          FixKeepsCanvas(c, Corrected(c, current, pass, response.value), Some(score), pass + 1);
        }
      }
    }
  }

  /** The scores at which the corrector is called, in order. */
  function CorrectorScores(log: seq<LogEvent>): seq<nat>
    decreases |log|
  {
    if |log| == 0 then []
    else (if log[0].AutoFixing? then [log[0].score] else []) + CorrectorScores(log[1..])
  }

  /** From pass `pass` on, the corrector is called at most once per
      remaining pass, at scores that strictly decrease and stay below the
      last one. */
  lemma {:induction false} FixCallsDecrease(c: Repair, advance: (Layout, nat, RawLayout) -> Layout, current: Layout, lastScore: Option<nat>, pass: nat)
    requires pass >= 1 && (lastScore.None? <==> pass == 1)
    ensures var calls := CorrectorScores(Fix(c, advance, current, lastScore, pass).1);
      && |calls| <= (if pass <= c.maxPasses then c.maxPasses - pass + 1 else 0)
      && (forall i, j :: 0 <= i < j < |calls| ==> calls[i] > calls[j])
      && (lastScore.Some? ==> forall i :: 0 <= i < |calls| ==> calls[i] < lastScore.value)
    decreases if pass <= c.maxPasses then c.maxPasses - pass + 1 else 0
  {
    if pass <= c.maxPasses {
      var violations := c.validate(current);
      var score := Score(violations);
      if score != 0 && !(lastScore.Some? && score >= lastScore.value && pass > 1) {
        var response := c.corrector(pass, Simplify(current), violations);
        var events := Fix(c, advance, current, lastScore, pass).1;
        if response.Some? {
          var next := advance(current, pass, response.value);
          var rest := Fix(c, advance, next, Some(score), pass + 1).1;
          assert events == [AutoFixing(pass, c.maxPasses, score)] + rest;
          FixCallsDecrease(c, advance, next, Some(score), pass + 1);
          CorrectorScoresCons(AutoFixing(pass, c.maxPasses, score), rest);
          ConsDecreasing(score, CorrectorScores(rest), lastScore);
        } else {
          assert events == [AutoFixing(pass, c.maxPasses, score), FixFailed(pass)];
          CorrectorScoresCons(AutoFixing(pass, c.maxPasses, score), [FixFailed(pass)]);
          CorrectorScoresCons(FixFailed(pass), []);
          assert [AutoFixing(pass, c.maxPasses, score)] + [FixFailed(pass)] == events;
          assert [FixFailed(pass)] + [] == [FixFailed(pass)];
        }
      }
    }
  }

  lemma CorrectorScoresCons(e: LogEvent, rest: seq<LogEvent>)
    ensures CorrectorScores([e] + rest) == (if e.AutoFixing? then [e.score] else []) + CorrectorScores(rest)
  {
    assert ([e] + rest)[0] == e && ([e] + rest)[1..] == rest;
  }

  /** Putting a larger score in front keeps a list strictly decreasing. */
  lemma ConsDecreasing(x: nat, calls: seq<nat>, bound: Option<nat>)
    requires forall i, j :: 0 <= i < j < |calls| ==> calls[i] > calls[j]
    requires forall i :: 0 <= i < |calls| ==> calls[i] < x
    requires bound.Some? ==> x < bound.value
    ensures var r := [x] + calls;
      && (forall i, j :: 0 <= i < j < |r| ==> r[i] > r[j])
      && (bound.Some? ==> forall i :: 0 <= i < |r| ==> r[i] < bound.value)
  {
  }

  /** From pass `pass` on, the corrector is never called on a layout that
      scores 0: every logged call has a positive score. */
  lemma {:induction false} FixNeverCorrectsValid(c: Repair, advance: (Layout, nat, RawLayout) -> Layout, current: Layout, lastScore: Option<nat>, pass: nat)
    ensures 0 !in CorrectorScores(Fix(c, advance, current, lastScore, pass).1)
    decreases if pass <= c.maxPasses then c.maxPasses - pass + 1 else 0
  {
    if pass <= c.maxPasses {
      var violations := c.validate(current);
      var score := Score(violations);
      if score != 0 && !(lastScore.Some? && score >= lastScore.value && pass > 1) {
        var response := c.corrector(pass, Simplify(current), violations);
        var events := Fix(c, advance, current, lastScore, pass).1;
        if response.Some? {
          var next := advance(current, pass, response.value);
          var rest := Fix(c, advance, next, Some(score), pass + 1).1;
          assert events == [AutoFixing(pass, c.maxPasses, score)] + rest;
          FixNeverCorrectsValid(c, advance, next, Some(score), pass + 1);
          CorrectorScoresCons(AutoFixing(pass, c.maxPasses, score), rest);
        } else {
          assert events == [AutoFixing(pass, c.maxPasses, score)] + [FixFailed(pass)];
          CorrectorScoresCons(AutoFixing(pass, c.maxPasses, score), [FixFailed(pass)]);
          CorrectorScoresCons(FixFailed(pass), []);
          assert [FixFailed(pass)] + [] == [FixFailed(pass)];
        }
      }
    }
  }

  /** The whole loop calls the corrector at most maxPasses times, never on a
      layout scoring 0, at strictly decreasing scores. */
  lemma RunIterativeFixBounded(layout: Layout, c: Repair)
    ensures var calls := CorrectorScores(Fix(c, Advance(c), layout, None, 1).1);
      && |calls| <= (if c.maxPasses >= 1 then c.maxPasses else 0)
      && 0 !in calls
      && forall i, j :: 0 <= i < j < |calls| ==> calls[i] > calls[j]
  {
    FixCallsDecrease(c, Advance(c), layout, None, 1);
    FixNeverCorrectsValid(c, Advance(c), layout, None, 1);
  }

  /** At any pass, a layout that validates with score 0 ends the loop: it
      is returned as it is, and the corrector is not called. */
  lemma FixStopsWhenValid(c: Repair, advance: (Layout, nat, RawLayout) -> Layout, current: Layout, lastScore: Option<nat>, pass: nat)
    requires 1 <= pass <= c.maxPasses && Score(c.validate(current)) == 0
    ensures Fix(c, advance, current, lastScore, pass) == (current, [Validated(pass)])
  {
  }

  /** At any pass after the first, a score no lower than the last one ends
      the loop with the current layout. */
  lemma FixStopsOnStagnation(c: Repair, advance: (Layout, nat, RawLayout) -> Layout, current: Layout, lastScore: Option<nat>, pass: nat)
    requires 1 < pass <= c.maxPasses && lastScore.Some?
    requires 0 < lastScore.value <= Score(c.validate(current))
    ensures Fix(c, advance, current, lastScore, pass) ==
      (current, [Stagnation(pass, Score(c.validate(current)))])
  {
  }

  /** At any pass that reaches the corrector, a failed correction ends the
      loop with the current layout, the last one merged successfully. */
  lemma FixStopsOnFailure(c: Repair, advance: (Layout, nat, RawLayout) -> Layout, current: Layout, lastScore: Option<nat>, pass: nat)
    requires 1 <= pass <= c.maxPasses && Score(c.validate(current)) > 0
    requires !(lastScore.Some? && Score(c.validate(current)) >= lastScore.value && pass > 1)
    requires c.corrector(pass, Simplify(current), c.validate(current)).None?
    ensures Fix(c, advance, current, lastScore, pass) ==
      (current, [AutoFixing(pass, c.maxPasses, Score(c.validate(current))), FixFailed(pass)])
  {
  }

  /** A corrector that answers with no elements changes nothing, so the
      second pass sees the same score and stops for stagnation with the
      input layout. */
  lemma RunIterativeFixStagnates(layout: Layout, c: Repair)
    requires c.maxPasses >= 2 && Score(c.validate(layout)) > 0
    requires UniqueIds(layout.elements)
    requires c.corrector(1, Simplify(layout), c.validate(layout)) == Some(RawLayout(None, None, None))
    ensures var s := Score(c.validate(layout));
      Fix(c, Advance(c), layout, None, 1) == (layout, [AutoFixing(1, c.maxPasses, s), Stagnation(2, s)])
  {
    var raw := RawLayout(None, None, None);
    var fixed := MapToInternalLayout(raw, PassTokens(c, 1, 0));
    assert fixed.elements == [];
    MergeNoUpdates(layout.elements, PassTokens(c, 1, 0));
    assert Corrected(c, layout, 1, raw) == layout;
    var s := Score(c.validate(layout));
    assert Fix(c, Advance(c), layout, Some(s), 2) == (layout, [Stagnation(2, s)]);
    assert Fix(c, Advance(c), layout, None, 1) == (layout, [AutoFixing(1, c.maxPasses, s)] + [Stagnation(2, s)]);
    assert [AutoFixing(1, c.maxPasses, s)] + [Stagnation(2, s)] == [AutoFixing(1, c.maxPasses, s), Stagnation(2, s)];
  }

  /** When the first correction does not lower the score, the second pass
      stops for stagnation and the loop returns the corrected layout, the
      one that scored no better, not the input. */
  lemma RunIterativeFixStagnationKeepsLast(layout: Layout, c: Repair, raw: RawLayout)
    requires c.maxPasses >= 2 && Score(c.validate(layout)) > 0
    requires c.corrector(1, Simplify(layout), c.validate(layout)) == Some(raw)
    requires Score(c.validate(Corrected(c, layout, 1, raw))) >= Score(c.validate(layout))
    ensures var next := Corrected(c, layout, 1, raw);
      var s1 := Score(c.validate(layout));
      var s2 := Score(c.validate(next));
      Fix(c, Advance(c), layout, None, 1) == (next, [AutoFixing(1, c.maxPasses, s1), Stagnation(2, s2)])
  {
    var next := Corrected(c, layout, 1, raw);
    var s1 := Score(c.validate(layout));
    var s2 := Score(c.validate(next));
    assert Fix(c, Advance(c), next, Some(s1), 2) == (next, [Stagnation(2, s2)]);
    assert [AutoFixing(1, c.maxPasses, s1)] + [Stagnation(2, s2)] == [AutoFixing(1, c.maxPasses, s1), Stagnation(2, s2)];
  }
}
