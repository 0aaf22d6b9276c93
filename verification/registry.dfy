/** `Manager`: an insertion-ordered dictionary from widget id to widget that
    fans each frame's update and render out to every widget in that order. */
module Registry {
  import opened Wrappers
  import opened Styles
  import opened StateMachine
  import opened Normalization
  import opened Widgets

  /** The `widgets` dictionary: its keys in insertion order, and the widgets. */
  datatype Manager = Manager(ids: seq<string>, widgets: map<string, Widget>)

  /** A manager with no widgets. */
  const Empty: Manager := Manager([], map[])

  ghost predicate Distinct(ids: seq<string>) {
    forall i, j :: 0 <= i < j < |ids| ==> ids[i] != ids[j]
  }

  /** The order lists every key of the dictionary exactly once. */
  ghost predicate WellFormed(m: Manager) {
    && Distinct(m.ids)
    && forall id :: id in m.widgets <==> id in m.ids
  }

  /** `widgets[id] = w`: a fresh id goes to the end of the order; an existing
      id keeps its position and only its widget is replaced. */
  function Insert(m: Manager, id: string, w: Widget): (r: Manager)
    ensures WellFormed(m) ==> WellFormed(r)
    ensures r.widgets.Keys == m.widgets.Keys + {id}
    ensures r.widgets[id] == w
    ensures forall k :: k in m.widgets && k != id ==> r.widgets[k] == m.widgets[k]
    ensures |r.ids| == |m.ids| + (if id in m.widgets then 0 else 1)
    ensures forall i :: 0 <= i < |m.ids| ==> r.ids[i] == m.ids[i]
    ensures id !in m.widgets ==> r.ids[|m.ids|] == id
  {
    if id in m.widgets then Manager(m.ids, m.widgets[id := w])
    else Manager(m.ids + [id], m.widgets[id := w])
  }

  /** `new_widget`: construct, then store under the id. A failed construction
      leaves the manager as it was. */
  function NewWidget(m: Manager, id: string, kind: Kind, data: Config, producers: Producers)
    : (r: Result<Manager, WidgetError>)
    ensures r.Err? <==> !(DefaultState in data.states && Drawable(data.states[DefaultState]))
    ensures r.Ok? ==> r.value == Insert(m, id, Construct(kind, data, producers).value)
  {
    match Construct(kind, data, producers)
    case Err(e) => Err(e)
    case Ok(w) => Ok(Insert(m, id, w))
  }

  /** One widget's update for a frame; it may refuse some widgets. */
  type Step = Widget --> Result<Widget, VisualError>

  /** The loop of `Manager.update` over `ids`: `step` is one widget's
      `update(events)` for the frame; each widget in turn is stepped and the
      first failure aborts the loop. */
  function UpdateEach(ids: seq<string>, widgets: map<string, Widget>, step: Step)
    : (r: Result<map<string, Widget>, VisualError>)
    requires Distinct(ids)
    requires forall i :: 0 <= i < |ids| ==> ids[i] in widgets && step.requires(widgets[ids[i]])
    ensures r.Ok? ==> r.value.Keys == widgets.Keys
    decreases |ids|
  {
    if |ids| == 0 then Ok(widgets)
    else
      match step(widgets[ids[0]])
      case Err(e) => Err(e)
      case Ok(w) =>
        assert forall i :: 1 <= i < |ids| ==> ids[i] != ids[0];
        UpdateEach(ids[1..], widgets[ids[0] := w], step)
  }

  /** The loop succeeds exactly when every widget's step does. */
  lemma {:induction false} UpdateEachSucceeds(ids: seq<string>, widgets: map<string, Widget>, step: Step)
    requires Distinct(ids)
    requires forall i :: 0 <= i < |ids| ==> ids[i] in widgets && step.requires(widgets[ids[i]])
    ensures UpdateEach(ids, widgets, step).Ok? <==> forall k :: k in ids ==> step(widgets[k]).Ok?
    decreases |ids|
  {
    if |ids| > 0 {
      var first := step(widgets[ids[0]]);
      if first.Ok? {
        var rest := ids[1..];
        var next := widgets[ids[0] := first.value];
        assert forall i :: 0 <= i < |rest| ==> next[rest[i]] == widgets[ids[i + 1]];
        UpdateEachSucceeds(rest, next, step);
        assert forall k :: k in rest ==> next[k] == widgets[k];
        assert forall k :: k in ids <==> k == ids[0] || k in rest;
      }
    }
  }

  /** On success each id holds its own widget stepped once, and ids outside
      the loop keep theirs. */
  lemma {:induction false} UpdateEachValues(ids: seq<string>, widgets: map<string, Widget>, step: Step)
    requires Distinct(ids)
    requires forall i :: 0 <= i < |ids| ==> ids[i] in widgets && step.requires(widgets[ids[i]])
    requires UpdateEach(ids, widgets, step).Ok?
    ensures forall k :: k in ids ==> step(widgets[k]) == Ok(UpdateEach(ids, widgets, step).value[k])
    ensures forall k :: k in widgets && k !in ids ==> UpdateEach(ids, widgets, step).value[k] == widgets[k]
    decreases |ids|
  {
    if |ids| > 0 {
      var first := step(widgets[ids[0]]);
      var rest := ids[1..];
      var next := widgets[ids[0] := first.value];
      assert forall i :: 0 <= i < |rest| ==> next[rest[i]] == widgets[ids[i + 1]];
      UpdateEachValues(rest, next, step);
      assert forall k :: k in rest ==> next[k] == widgets[k];
      assert forall k :: k in ids <==> k == ids[0] || k in rest;
    }
  }

  /** On failure the error is that of the first failing widget in order. */
  lemma {:induction false} UpdateEachFirstError(ids: seq<string>, widgets: map<string, Widget>, step: Step)
    requires Distinct(ids)
    requires forall i :: 0 <= i < |ids| ==> ids[i] in widgets && step.requires(widgets[ids[i]])
    requires UpdateEach(ids, widgets, step).Err?
    ensures exists i ::
      && 0 <= i < |ids|
      && step(widgets[ids[i]]) == Err(UpdateEach(ids, widgets, step).error)
      && (forall j :: 0 <= j < i ==> step(widgets[ids[j]]).Ok?)
    decreases |ids|
  {
    var first := step(widgets[ids[0]]);
    if first.Ok? {
      var rest := ids[1..];
      var next := widgets[ids[0] := first.value];
      assert forall i :: 0 <= i < |rest| ==> next[rest[i]] == widgets[ids[i + 1]];
      UpdateEachFirstError(rest, next, step);
      var e := UpdateEach(rest, next, step).error;
      var i :| 0 <= i < |rest| && step(next[rest[i]]) == Err(e)
               && forall j :: 0 <= j < i ==> step(next[rest[j]]).Ok?;
      forall j | 0 <= j < i + 1
        ensures step(widgets[ids[j]]).Ok?
      {
        if j > 0 {
          assert step(next[rest[j - 1]]).Ok?;
        }
      }
      assert step(widgets[ids[i + 1]]) == Err(e);
    } else {
      assert step(widgets[ids[0]]) == Err(UpdateEach(ids, widgets, step).error);
    }
  }

  /** `Manager.update(events)`: the loop with every widget's `update` on
      the same frame input. */
  function UpdateAll(m: Manager, input: Input, producers: Producers): (r: Result<Manager, VisualError>)
    requires WellFormed(m)
    requires forall id :: id in m.widgets ==> Updatable(m.widgets[id])
    ensures r.Ok? <==> forall id :: id in m.widgets ==> Update(m.widgets[id], input, producers).Ok?
    ensures r.Ok? ==> r.value.ids == m.ids && WellFormed(r.value)
    ensures r.Ok? ==> forall id :: id in m.widgets ==>
      r.value.widgets[id] == Update(m.widgets[id], input, producers).value
  {
    var step: Step := (w: Widget) requires Updatable(w) => Update(w, input, producers);
    UpdateEachSucceeds(m.ids, m.widgets, step);
    match UpdateEach(m.ids, m.widgets, step)
    case Err(e) => Err(e)
    case Ok(ws) =>
      UpdateEachValues(m.ids, m.widgets, step);
      Ok(Manager(m.ids, ws))
  }

  /** The loop of `Manager.render` over `ids`. */
  function RenderEach(ids: seq<string>, widgets: map<string, Widget>): (r: seq<Draw>)
    requires forall i :: 0 <= i < |ids| ==> ids[i] in widgets
    ensures |r| <= |ids|
    ensures (forall i :: 0 <= i < |ids| ==> widgets[ids[i]].texture.Some?) ==>
      |r| == |ids| && forall i :: 0 <= i < |ids| ==>
        r[i] == Draw(widgets[ids[i]].texture.value, widgets[ids[i]].rect)
    ensures (forall i :: 0 <= i < |ids| ==> widgets[ids[i]].texture.None?) ==> r == []
    decreases |ids|
  {
    if |ids| == 0 then [] else Render(widgets[ids[0]]) + RenderEach(ids[1..], widgets)
  }

  /** `Manager.render()`: the draws of the widgets, in insertion order. */
  function RenderAll(m: Manager): (r: seq<Draw>)
    requires WellFormed(m)
    ensures |r| <= |m.ids|
    ensures (forall id :: id in m.widgets ==> m.widgets[id].texture.Some?) ==>
      |r| == |m.ids| && forall i :: 0 <= i < |m.ids| ==>
        r[i] == Draw(m.widgets[m.ids[i]].texture.value, m.widgets[m.ids[i]].rect)
  {
    RenderEach(m.ids, m.widgets)
  }

  /** Rendering only looks at the widgets the order names. */
  lemma {:induction false} RenderEachFrame(ids: seq<string>, a: map<string, Widget>, b: map<string, Widget>)
    requires forall i :: 0 <= i < |ids| ==> ids[i] in a && ids[i] in b && a[ids[i]] == b[ids[i]]
    ensures RenderEach(ids, a) == RenderEach(ids, b)
    decreases |ids|
  {
    if |ids| > 0 {
      RenderEachFrame(ids[1..], a, b);
    }
  }

  /** Rendering two orders one after the other draws the first order's draws,
      then the second's. */
  lemma {:induction false} RenderEachConcat(a: seq<string>, b: seq<string>, widgets: map<string, Widget>)
    requires forall i :: 0 <= i < |a| ==> a[i] in widgets
    requires forall i :: 0 <= i < |b| ==> b[i] in widgets
    ensures RenderEach(a + b, widgets) == RenderEach(a, widgets) + RenderEach(b, widgets)
    decreases |a|
  {
    if |a| == 0 {
      assert a + b == b;
    } else {
      assert (a + b)[1..] == a[1..] + b;
      RenderEachConcat(a[1..], b, widgets);
    }
  }

  /** Rendering one more widget at the end adds its draws last. */
  lemma RenderEachAppend(ids: seq<string>, id: string, widgets: map<string, Widget>)
    requires forall i :: 0 <= i < |ids| ==> ids[i] in widgets
    requires id in widgets
    ensures RenderEach(ids + [id], widgets) == RenderEach(ids, widgets) + Render(widgets[id])
  {
    RenderEachConcat(ids, [id], widgets);
    assert RenderEach([id], widgets) == Render(widgets[id]) + RenderEach([], widgets);
  }

  /** A widget's draws sit between those of the widgets before it and those
      of the widgets after it. */
  lemma RenderEachBetween(before: seq<string>, id: string, after: seq<string>, widgets: map<string, Widget>)
    requires forall i :: 0 <= i < |before| ==> before[i] in widgets
    requires id in widgets
    requires forall i :: 0 <= i < |after| ==> after[i] in widgets
    ensures RenderEach(before + [id] + after, widgets)
         == RenderEach(before, widgets) + Render(widgets[id]) + RenderEach(after, widgets)
  {
    var front := before + [id];
    assert forall i :: 0 <= i < |front| ==> front[i] in widgets;
    RenderEachAppend(before, id, widgets);
    RenderEachConcat(front, after, widgets);
  }

  /** `Manager.render()` draws each widget after every widget inserted before
      it and before every widget inserted after it. */
  lemma RenderAllOrder(m: Manager, before: seq<string>, id: string, after: seq<string>)
    requires WellFormed(m)
    requires m.ids == before + [id] + after
    ensures RenderAll(m)
         == RenderEach(before, m.widgets) + Render(m.widgets[id]) + RenderEach(after, m.widgets)
  {
    assert forall i :: 0 <= i < |before| ==> before[i] == m.ids[i];
    assert m.ids[|before|] == id;
    assert forall i :: 0 <= i < |after| ==> after[i] == m.ids[|before| + 1 + i];
    RenderEachBetween(before, id, after, m.widgets);
  }

  /** A widget registered under a fresh id is drawn after every earlier one. */
  lemma RenderAfterNewWidget(m: Manager, id: string, w: Widget)
    requires WellFormed(m)
    requires id !in m.widgets
    ensures RenderAll(Insert(m, id, w)) == RenderAll(m) + Render(w)
  {
    var r := Insert(m, id, w);
    RenderEachAppend(m.ids, id, r.widgets);
    RenderEachFrame(m.ids, r.widgets, m.widgets);
  }

  /** A manager with no widgets is well formed, draws nothing, and updates
      to itself; its first widget becomes the whole order. */
  lemma EmptyManager(input: Input, producers: Producers, id: string, w: Widget)
    ensures WellFormed(Empty)
    ensures RenderAll(Empty) == []
    ensures UpdateAll(Empty, input, producers) == Ok(Empty)
    ensures Insert(Empty, id, w) == Manager([id], map[id := w])
  {
  }

  /** A manager of valid buttons updates without failure and stays so. */
  lemma UpdateAllButtons(m: Manager, input: Input, producers: Producers)
    requires WellFormed(m)
    requires forall id :: id in m.widgets ==> Updatable(m.widgets[id]) && m.widgets[id].kind != Base && Valid(m.widgets[id])
    ensures UpdateAll(m, input, producers).Ok?
    ensures forall id :: id in m.widgets ==>
      var w := UpdateAll(m, input, producers).value.widgets[id];
      w.kind != Base && Valid(w)
  {
    forall id | id in m.widgets
      ensures Updatable(m.widgets[id])
      ensures Update(m.widgets[id], input, producers).Ok?
      ensures Valid(Update(m.widgets[id], input, producers).value)
    {
      UpdateValid(m.widgets[id], input, producers);
    }
  }
}
