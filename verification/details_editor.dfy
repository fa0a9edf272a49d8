/**
 * The task-details text area of script.js `openTaskView`: opening a cached
 * task fills the text area and installs an `oninput` handler for that task;
 * each input cancels the pending save and schedules a new one; when the
 * timer fires, `saveTaskDetails` runs. Time is abstracted to the `Fire`
 * event, which stands for the 500 ms delay running out.
 */
module DetailsEditor {
  import opened Wrappers
  import opened TaskCache

  datatype Event =
    | Open(id: Id, details: Option<string>)  // `openTaskView` of a cached task
    | Input(text: string)                    // the user edits the text area
    | Fire                                   // the pending timer runs out

  /** A `saveTaskDetails(taskId, details)` call. */
  datatype Save = Save(id: Id, text: string)

  /** As written: the timer remembers only the task; the text is read from
      the text area when it fires. */
  datatype Editor = Editor(text: string, handler: Option<Id>, pending: Option<Id>)

  /** As intended: the timer carries the task and the text it was typed
      for. */
  datatype FixedEditor = FixedEditor(text: string, handler: Option<Id>, pending: Option<Save>)

  function Step(e: Editor, ev: Event): (Editor, Option<Save>) {
    match ev
    case Open(id, details) => (e.(text := details.GetOr(""), handler := Some(id)), None)
    case Input(t) =>
      if e.handler.Some? then (e.(text := t, pending := e.handler), None) else (e.(text := t), None)
    case Fire =>
      match e.pending
      case Some(id) => (e.(pending := None), Some(Save(id, e.text)))
      case None => (e, None)
  }

  function FixedStep(e: FixedEditor, ev: Event): (FixedEditor, Option<Save>) {
    match ev
    case Open(id, details) => (e.(text := details.GetOr(""), handler := Some(id)), None)
    case Input(t) =>
      if e.handler.Some? then (e.(text := t, pending := Some(Save(e.handler.value, t))), None)
      else (e.(text := t), None)
    case Fire =>
      match e.pending
      case Some(sv) => (e.(pending := None), Some(sv))
      case None => (e, None)
  }

  function Saved(out: Option<Save>): seq<Save> {
    if out.Some? then [out.value] else []
  }

  /** The saves a sequence of events triggers, and the final editor. */
  function Run(e: Editor, evs: seq<Event>): (Editor, seq<Save>)
    decreases |evs|
  {
    if evs == [] then (e, [])
    else
      var first := Step(e, evs[0]);
      var rest := Run(first.0, evs[1..]);
      (rest.0, Saved(first.1) + rest.1)
  }

  function FixedRun(e: FixedEditor, evs: seq<Event>): (FixedEditor, seq<Save>)
    decreases |evs|
  {
    if evs == [] then (e, [])
    else
      var first := FixedStep(e, evs[0]);
      var rest := FixedRun(first.0, evs[1..]);
      (rest.0, Saved(first.1) + rest.1)
  }

  /** The editor after a prefix of events, built from the back. */
  function FixedAfter(e: FixedEditor, evs: seq<Event>): FixedEditor
    decreases |evs|
  {
    if evs == [] then e else FixedStep(FixedAfter(e, evs[..|evs| - 1]), evs[|evs| - 1]).0
  }

  /** As written, typing into one task's details and opening another task
      before the timer fires saves the second task's details under the
      first task's id. */
  lemma AsWrittenSavesWrongText()
    ensures Run(Editor("", None, None), [Open(1, None), Input("x"), Open(2, Some("b")), Fire]).1
         == [Save(1, "b")]
  {
    var e0 := Editor("", None, None);
    var e1 := Editor("", Some(1), None);
    var e2 := Editor("x", Some(1), Some(1));
    var e3 := Editor("b", Some(2), Some(1));
    var e4 := Editor("b", Some(2), None);
    assert Step(e0, Open(1, None)) == (e1, None);
    assert Step(e1, Input("x")) == (e2, None);
    assert Step(e2, Open(2, Some("b"))) == (e3, None);
    assert Step(e3, Fire) == (e4, Some(Save(1, "b")));
    assert Run(e3, [Fire]) == (e4, [Save(1, "b")]) by {
      assert [Fire][1..] == [];
      assert Run(e4, []) == (e4, []);
      assert Saved(Some(Save(1, "b"))) + [] == [Save(1, "b")];
    }
    assert Run(e2, [Open(2, Some("b")), Fire]) == (e4, [Save(1, "b")]) by {
      assert Saved(None) + [Save(1, "b")] == [Save(1, "b")];
      assert [Open(2, Some("b")), Fire][1..] == [Fire];
    }
    assert Run(e1, [Input("x"), Open(2, Some("b")), Fire]) == (e4, [Save(1, "b")]) by {
      assert Saved(None) + [Save(1, "b")] == [Save(1, "b")];
      assert [Input("x"), Open(2, Some("b")), Fire][1..] == [Open(2, Some("b")), Fire];
    }
    assert [Open(1, None), Input("x"), Open(2, Some("b")), Fire][1..] == [Input("x"), Open(2, Some("b")), Fire];
  }

  /** The same events with the intended editor save what was typed. */
  lemma FixedSavesTypedText()
    ensures FixedRun(FixedEditor("", None, None), [Open(1, None), Input("x"), Open(2, Some("b")), Fire]).1
         == [Save(1, "x")]
  {
    var e0 := FixedEditor("", None, None);
    var e1 := FixedEditor("", Some(1), None);
    var e2 := FixedEditor("x", Some(1), Some(Save(1, "x")));
    var e3 := FixedEditor("b", Some(2), Some(Save(1, "x")));
    var e4 := FixedEditor("b", Some(2), None);
    assert FixedStep(e0, Open(1, None)) == (e1, None);
    assert FixedStep(e1, Input("x")) == (e2, None);
    assert FixedStep(e2, Open(2, Some("b"))) == (e3, None);
    assert FixedStep(e3, Fire) == (e4, Some(Save(1, "x")));
    assert FixedRun(e3, [Fire]) == (e4, [Save(1, "x")]) by {
      assert [Fire][1..] == [];
      assert FixedRun(e4, []) == (e4, []);
      assert Saved(Some(Save(1, "x"))) + [] == [Save(1, "x")];
    }
    assert FixedRun(e2, [Open(2, Some("b")), Fire]) == (e4, [Save(1, "x")]) by {
      assert Saved(None) + [Save(1, "x")] == [Save(1, "x")];
      assert [Open(2, Some("b")), Fire][1..] == [Fire];
    }
    assert FixedRun(e1, [Input("x"), Open(2, Some("b")), Fire]) == (e4, [Save(1, "x")]) by {
      assert Saved(None) + [Save(1, "x")] == [Save(1, "x")];
      assert [Input("x"), Open(2, Some("b")), Fire][1..] == [Open(2, Some("b")), Fire];
    }
    assert [Open(1, None), Input("x"), Open(2, Some("b")), Fire][1..] == [Input("x"), Open(2, Some("b")), Fire];
  }

  /** `sv` was typed as event `j`, while its task was open, and only task
      openings followed. */
  ghost predicate TypedAt(e: FixedEditor, evs: seq<Event>, sv: Save, j: int) {
    && 0 <= j < |evs| && evs[j] == Input(sv.text)
    && FixedAfter(e, evs[..j]).handler == Some(sv.id)
    && forall k | j < k < |evs| :: evs[k].Open?
  }

  /** The save pending after `evs`, if any, was typed by its last input. */
  ghost predicate PendingTyped(e: FixedEditor, evs: seq<Event>) {
    var now := FixedAfter(e, evs);
    now.pending.Some? ==> now.handler.Some? && exists j :: TypedAt(e, evs, now.pending.value, j)
  }

  /** One event extends `PendingTyped` from a prefix to the whole trace. */
  lemma PendingTypedStep(e: FixedEditor, evs: seq<Event>)
    requires evs != [] && PendingTyped(e, evs[..|evs| - 1])
    ensures PendingTyped(e, evs)
  {
    var n := |evs| - 1;
    var init := evs[..n];
    var before := FixedAfter(e, init);
    var after := FixedAfter(e, evs);
    assert after == FixedStep(before, evs[n]).0;
    if after.pending.Some? {
      var sv := after.pending.value;
      if evs[n].Input? && before.handler.Some? {
        assert TypedAt(e, evs, sv, n);
      } else {
        var j :| TypedAt(e, init, sv, j);
        assert init[..j] == evs[..j];
        assert TypedAt(e, evs, sv, j);
      }
    }
  }

  /** At most one save is ever pending, and it carries the most recent
      input together with the task that was open when it was typed; only
      task openings have happened since. A `Fire` saves exactly that. */
  lemma {:induction false} FixedPendingIsLastInput(e: FixedEditor, evs: seq<Event>)
    requires e.pending.None?
    ensures FixedAfter(e, evs).pending.Some? ==> FixedAfter(e, evs).handler.Some?
    ensures FixedAfter(e, evs).pending.Some? ==>
      var sv := FixedAfter(e, evs).pending.value;
      exists j :: 0 <= j < |evs| && evs[j] == Input(sv.text) && FixedAfter(e, evs[..j]).handler == Some(sv.id)
        && forall k | j < k < |evs| :: evs[k].Open?
    decreases |evs|
  {
    if evs != [] {
      var init := evs[..|evs| - 1];
      FixedPendingIsLastInput(e, init);
      var before := FixedAfter(e, init);
      if before.pending.Some? {
        var j :| 0 <= j < |init| && init[j] == Input(before.pending.value.text)
          && FixedAfter(e, init[..j]).handler == Some(before.pending.value.id)
          && forall k | j < k < |init| :: init[k].Open?;
        assert TypedAt(e, init, before.pending.value, j);
      }
      PendingTypedStep(e, evs);
    }
    if FixedAfter(e, evs).pending.Some? {
      var j :| TypedAt(e, evs, FixedAfter(e, evs).pending.value, j);
    }
  }

  /** Running one more event appends that event's save to the trace. */
  lemma {:induction false} FixedRunSnoc(e: FixedEditor, evs: seq<Event>, ev: Event)
    ensures FixedRun(e, evs + [ev]).0 == FixedStep(FixedRun(e, evs).0, ev).0
    ensures FixedRun(e, evs + [ev]).1 == FixedRun(e, evs).1 + Saved(FixedStep(FixedRun(e, evs).0, ev).1)
    decreases |evs|
  {
    if evs == [] {
      assert [ev][1..] == [];
    } else {
      assert (evs + [ev])[0] == evs[0];
      assert (evs + [ev])[1..] == evs[1..] + [ev];
      FixedRunSnoc(FixedStep(e, evs[0]).0, evs[1..], ev);
    }
  }

  /** Building the editor from the back agrees with running it forward. */
  lemma {:induction false} FixedAfterIsRun(e: FixedEditor, evs: seq<Event>)
    ensures FixedAfter(e, evs) == FixedRun(e, evs).0
    decreases |evs|
  {
    if evs != [] {
      var n := |evs| - 1;
      FixedAfterIsRun(e, evs[..n]);
      assert evs == evs[..n] + [evs[n]];
      FixedRunSnoc(e, evs[..n], evs[n]);
    }
  }

  /** A `Fire` after any trace saves at most one thing: the last text typed,
      under the task that was open when it was typed; only task openings
      happened in between. */
  lemma FireSavesLastInput(e: FixedEditor, evs: seq<Event>)
    requires e.pending.None?
    ensures var before := FixedRun(e, evs).1;
      var saves := FixedRun(e, evs + [Fire]).1;
      && |before| <= |saves| <= |before| + 1
      && saves[..|before|] == before
      && (|saves| == |before| + 1 ==>
            var sv := saves[|before|];
            exists j :: 0 <= j < |evs| && evs[j] == Input(sv.text) && FixedRun(e, evs[..j]).0.handler == Some(sv.id)
              && forall k | j < k < |evs| :: evs[k].Open?)
  {
    var now := FixedRun(e, evs).0;
    FixedRunSnoc(e, evs, Fire);
    FixedAfterIsRun(e, evs);
    FixedPendingIsLastInput(e, evs);
    var before := FixedRun(e, evs).1;
    var saves := FixedRun(e, evs + [Fire]).1;
    assert saves[..|before|] == before;
    if now.pending.Some? {
      var sv := now.pending.value;
      assert saves[|before|] == sv;
      var j :| 0 <= j < |evs| && evs[j] == Input(sv.text) && FixedAfter(e, evs[..j]).handler == Some(sv.id)
        && forall k | j < k < |evs| :: evs[k].Open?;
      FixedAfterIsRun(e, evs[..j]);
    }
  }
  /** Conversely, text typed while a task is open, followed only by task
      openings, is exactly what the timer will save. */
  lemma {:induction false} TypedIsPending(e: FixedEditor, evs: seq<Event>, sv: Save, j: int)
    requires TypedAt(e, evs, sv, j)
    ensures FixedAfter(e, evs).pending == Some(sv)
    decreases |evs|
  {
    var n := |evs| - 1;
    var init := evs[..n];
    assert FixedAfter(e, evs) == FixedStep(FixedAfter(e, init), evs[n]).0;
    if j == n {
      assert init == evs[..j];
    } else {
      assert init[..j] == evs[..j];
      assert TypedAt(e, init, sv, j);
      TypedIsPending(e, init, sv, j);
      assert evs[n].Open?;
    }
  }

  /** A `Fire` after text was typed for an open task, with only task
      openings since, saves that text under that task. */
  lemma FireSavesTyped(e: FixedEditor, evs: seq<Event>, sv: Save, j: int)
    requires TypedAt(e, evs, sv, j)
    ensures FixedRun(e, evs + [Fire]).1 == FixedRun(e, evs).1 + [sv]
  {
    TypedIsPending(e, evs, sv, j);
    FixedAfterIsRun(e, evs);
    FixedRunSnoc(e, evs, Fire);
  }
}
