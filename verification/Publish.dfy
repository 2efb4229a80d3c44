/** Any number of commits racing to publish one event file.

    `publish_immutable` is split at every file-system call: create the temporary file,
    write it piecewise, link it, unlink it. A writer that loses the link reads the file
    that won. A crashed writer simply takes no further step; its temporary file may stay. */
module Publish {
  import opened Basics

  datatype Phase =
    | Start
    | Writing(done: nat)
    | Written
    | Linked(won: bool)
    | Cleaned(won: bool)
    | Returned(content: Bytes, won: bool)
    | Conflicted

  /** `data` is what each writer wants to publish; `visible` is the target file. */
  datatype World = World(data: map<string, Bytes>, phase: map<string, Phase>, temps: map<string, Bytes>,
                         visible: Option<Bytes>)

  datatype Step =
    | Create(writer: string)
    | Write(writer: string, upTo: nat)
    | Sync(writer: string)
    | Link(writer: string)
    | Unlink(writer: string)
    | Finish(writer: string)
    | ReadBack(writer: string)

  ghost predicate Known(w: World, a: string) {
    a in w.data && a in w.phase
  }

  function Move(w: World, a: string, p: Phase): World {
    w.(phase := w.phase[a := p])
  }

  ghost predicate Next(w: World, s: Step, w': World) {
    Known(w, s.writer) &&
    var a := s.writer; var p := w.phase[a];
    match s
    case Create(_) => p.Start? && w' == Move(w, a, Writing(0)).(temps := w.temps[a := []])
    case Write(_, n) =>
      p.Writing? && p.done <= n <= |w.data[a]| && w' == Move(w, a, Writing(n)).(temps := w.temps[a := w.data[a][..n]])
    case Sync(_) => p.Writing? && p.done == |w.data[a]| && w' == Move(w, a, Written)
    case Link(_) =>
      p.Written? && a in w.temps
      && w' == (if w.visible.None? then Move(w, a, Linked(true)).(visible := Some(w.temps[a]))
                else Move(w, a, Linked(false)))
    case Unlink(_) => p.Linked? && w' == Move(w, a, Cleaned(p.won)).(temps := w.temps - {a})
    case Finish(_) => p.Cleaned? && p.won && w' == Move(w, a, Returned(w.data[a], true))
    case ReadBack(_) =>
      p.Cleaned? && !p.won && w.visible.Some?
      && w' == Move(w, a, if w.visible.value == w.data[a] then Returned(w.visible.value, false) else Conflicted)
  }

  ghost predicate Init(w: World) {
    w.visible.None? && w.temps == map[] && w.phase.Keys == w.data.Keys && forall a :: a in w.phase ==> w.phase[a].Start?
  }

  ghost predicate Run(ws: seq<World>, steps: seq<Step>) {
    && |ws| == |steps| + 1 && Init(ws[0])
    && forall i, j :: 0 <= i < |steps| && j == i + 1 && j < |ws| ==> Next(ws[i], steps[i], ws[j])
  }

  predicate Won(p: Phase) {
    (p.Linked? && p.won) || (p.Cleaned? && p.won) || (p.Returned? && p.won)
  }

  predicate Lost(p: Phase) {
    (p.Linked? && !p.won) || (p.Cleaned? && !p.won) || (p.Returned? && !p.won) || p.Conflicted?
  }

  /** What one writer's phase says about its data, its temporary file and the visible file. */
  ghost predicate PhaseFits(w: World, a: string)
    requires Known(w, a)
  {
    var p := w.phase[a];
    && (p.Writing? ==> p.done <= |w.data[a]| && a in w.temps && w.temps[a] == w.data[a][..p.done])
    && (p.Written? ==> a in w.temps && w.temps[a] == w.data[a])
    && (Won(p) ==> w.visible == Some(w.data[a]))
    && (Lost(p) ==> w.visible.Some?)
    && (p.Returned? ==> p.content == w.data[a] && w.visible == Some(p.content))
    && (p.Conflicted? ==> w.visible.Some? && w.visible.value != w.data[a])
  }

  ghost predicate Inv(w: World) {
    && w.phase.Keys == w.data.Keys
    && (forall a :: Known(w, a) ==> PhaseFits(w, a))
    && (forall a, b :: Known(w, a) && Known(w, b) && Won(w.phase[a]) && Won(w.phase[b]) ==> a == b)
    && (w.visible.Some? ==> exists a :: Known(w, a) && Won(w.phase[a]))
  }

  /** The world keeps its data, and a visible file never changes. */
  ghost predicate Keeps(w: World, w': World) {
    w'.data == w.data && (w.visible.Some? ==> w'.visible == w.visible)
  }

  lemma {:induction false} StepOneWinner(w: World, s: Step, w': World, a: string, b: string)
    requires Inv(w) && Next(w, s, w') && Known(w', a) && Known(w', b) && Won(w'.phase[a]) && Won(w'.phase[b])
    ensures a == b
  {
    assert Known(w, a) && PhaseFits(w, a);
    assert Known(w, b) && PhaseFits(w, b);
  }

  lemma {:induction false} StepKeepsData(w: World, s: Step, w': World)
    requires Inv(w) && Next(w, s, w')
    ensures Keeps(w, w') && w'.phase.Keys == w'.data.Keys
  {
  }

  lemma {:induction false} StepKeepsInv(w: World, s: Step, w': World)
    requires Inv(w) && Next(w, s, w')
    ensures Inv(w') && Keeps(w, w')
  {
    hide Next, PhaseFits, Won;
    StepKeepsData(w, s, w');
    StepFits(w, s, w');
    forall a, b | Known(w', a) && Known(w', b) && Won(w'.phase[a]) && Won(w'.phase[b]) ensures a == b {
      StepOneWinner(w, s, w', a, b);
    }
    if w'.visible.Some? {
      StepHasWinner(w, s, w');
    }
  }

  lemma {:induction false} StepFits(w: World, s: Step, w': World)
    requires Inv(w) && Next(w, s, w')
    ensures forall b :: Known(w', b) ==> PhaseFits(w', b)
  {
    var a := s.writer;
    assert PhaseFits(w, a);
    forall b | Known(w', b) ensures PhaseFits(w', b) {
      assert Known(w, b) && PhaseFits(w, b);
      if b != a {
        assert w'.phase[b] == w.phase[b];
      } else if s.Sync? {
        assert w.data[a][..|w.data[a]|] == w.data[a];
      }
    }
  }

  lemma {:induction false} StepHasWinner(w: World, s: Step, w': World)
    requires Inv(w) && Next(w, s, w') && w'.visible.Some?
    ensures exists a :: Known(w', a) && Won(w'.phase[a])
  {
    if w.visible.Some? {
      var b :| Known(w, b) && Won(w.phase[b]);
      assert PhaseFits(w, s.writer);
      assert Known(w', b) && Won(w'.phase[b]);
    } else {
      assert Known(w', s.writer) && Won(w'.phase[s.writer]);
    }
  }

  lemma {:induction false} RunInv(ws: seq<World>, steps: seq<Step>, k: nat)
    requires Run(ws, steps) && k < |ws|
    ensures Inv(ws[k])
  {
    hide Next;
    if k > 0 {
      RunInv(ws, steps, k - 1);
      StepKeepsInv(ws[k - 1], steps[k - 1], ws[k]);
    }
  }

  /** Once a byte string is visible it stays, through every interleaving. */
  lemma {:induction false} VisibleForever(ws: seq<World>, steps: seq<Step>, k: nat, m: nat)
    requires Run(ws, steps) && k <= m < |ws|
    ensures Keeps(ws[k], ws[m])
    decreases m
  {
    hide Next, Inv;
    if k < m {
      VisibleForever(ws, steps, k, m - 1);
      RunInv(ws, steps, m - 1);
      StepKeepsInv(ws[m - 1], steps[m - 1], ws[m]);
    }
  }

  /** Only complete contents become visible: the visible bytes are one writer's whole data, and
      that writer alone won. */
  lemma {:induction false} VisibleIsComplete(ws: seq<World>, steps: seq<Step>, k: nat)
    requires Run(ws, steps) && k < |ws| && ws[k].visible.Some?
    ensures exists a :: Known(ws[k], a) && Won(ws[k].phase[a]) && ws[k].visible.value == ws[k].data[a]
                        && forall b :: Known(ws[k], b) && Won(ws[k].phase[b]) ==> b == a
  {
    hide Next;
    RunInv(ws, steps, k);
    var w := ws[k];
    var a :| Known(w, a) && Won(w.phase[a]);
    assert PhaseFits(w, a);
  }

  /** A commit that returned did so with the bytes that are visible at every later moment, which are its own. */
  lemma {:induction false} ReturnedIsVisible(ws: seq<World>, steps: seq<Step>, k: nat, m: nat, a: string)
    requires Run(ws, steps) && k <= m < |ws| && Known(ws[k], a) && ws[k].phase[a].Returned?
    ensures ws[m].visible == Some(ws[k].phase[a].content) && ws[k].phase[a].content == ws[k].data[a]
  {
    hide Next;
    RunInv(ws, steps, k);
    assert PhaseFits(ws[k], a);
    VisibleForever(ws, steps, k, m);
  }

  /** A finished commit conflicted exactly when its content differs from what is visible. */
  lemma {:induction false} ConflictIff(ws: seq<World>, steps: seq<Step>, k: nat, a: string)
    requires Run(ws, steps) && k < |ws| && Known(ws[k], a)
    requires ws[k].phase[a].Returned? || ws[k].phase[a].Conflicted?
    ensures ws[k].visible.Some?
    ensures ws[k].phase[a].Conflicted? <==> ws[k].data[a] != ws[k].visible.value
  {
    hide Next;
    RunInv(ws, steps, k);
    assert PhaseFits(ws[k], a);
  }

  // ------------------------------------------------------------ no commit is ever blocked

  ghost predicate Ended(w: World, a: string)
    requires Known(w, a)
  {
    w.phase[a].Returned? || w.phase[a].Conflicted?
  }

  /** How many calls a commit that runs alone still has to make. */
  ghost function Remaining(w: World, a: string): nat
    requires Known(w, a)
  {
    match w.phase[a]
    case Start => 6
    case Writing(done) => if done < |w.data[a]| then 5 else 4
    case Written => 3
    case Linked(_) => 2
    case Cleaned(_) => 1
    case _ => 0
  }

  /** The next call of an unfinished commit can always be made. */
  lemma {:induction false} GoesOn(w: World, a: string) returns (s: Step, w': World)
    requires Inv(w) && Known(w, a) && !Ended(w, a)
    ensures s.writer == a && Next(w, s, w') && Known(w', a) && Remaining(w', a) < Remaining(w, a)
    ensures w'.visible == w.visible || (w.visible.None? && w'.visible == Some(w.data[a]))
  {
    assert PhaseFits(w, a);
    match w.phase[a]
    case Start =>
      s, w' := Create(a), Move(w, a, Writing(0)).(temps := w.temps[a := []]);
    case Writing(done) =>
      if done < |w.data[a]| {
        var n := |w.data[a]|;
        s, w' := Write(a, n), Move(w, a, Writing(n)).(temps := w.temps[a := w.data[a][..n]]);
      } else {
        s, w' := Sync(a), Move(w, a, Written);
      }
    case Written =>
      s := Link(a);
      w' := if w.visible.None? then Move(w, a, Linked(true)).(visible := Some(w.temps[a]))
            else Move(w, a, Linked(false));
    case Linked(won) =>
      s, w' := Unlink(a), Move(w, a, Cleaned(won)).(temps := w.temps - {a});
    case Cleaned(won) =>
      if won {
        s, w' := Finish(a), Move(w, a, Returned(w.data[a], true));
      } else {
        s := ReadBack(a);
        w' := Move(w, a, if w.visible.value == w.data[a] then Returned(w.visible.value, false) else Conflicted);
      }
    case Returned(_, _) =>
    case Conflicted =>
  }

  /** The steps lead from `w` on and are all taken by `a`. */
  ghost predicate RunsAlone(ws: seq<World>, steps: seq<Step>, w: World, a: string) {
    && |ws| == |steps| + 1 && ws[0] == w
    && (forall i, j :: 0 <= i < |steps| && j == i + 1 && j < |ws| ==> Next(ws[i], steps[i], ws[j]))
    && forall i :: 0 <= i < |steps| ==> steps[i].writer == a
  }

  lemma {:induction false} EndedIff(w: World, a: string)
    requires Inv(w) && Known(w, a) && Ended(w, a)
    ensures w.visible.Some? && (w.phase[a].Returned? <==> w.visible.value == w.data[a])
  {
    assert PhaseFits(w, a);
  }

  /** Wherever the other commits have stopped, one that goes on alone ends within six calls: it returns if nothing or
      its own content was visible, and is in conflict if something else was. */
  lemma {:induction false} FinishesAlone(w: World, a: string) returns (ws: seq<World>, steps: seq<Step>)
    requires Inv(w) && Known(w, a)
    ensures RunsAlone(ws, steps, w, a) && |steps| <= Remaining(w, a)
    ensures Known(ws[|steps|], a) && Ended(ws[|steps|], a) && Inv(ws[|steps|]) && Keeps(w, ws[|steps|])
    ensures ws[|steps|].phase[a].Returned? <==> w.visible.None? || w.visible.value == w.data[a]
    decreases Remaining(w, a)
  {
    hide Inv, Next, Remaining;
    if Ended(w, a) {
      EndedIff(w, a);
      ws, steps := [w], [];
    } else {
      var s, w' := GoesOn(w, a);
      StepKeepsInv(w, s, w');
      var ws', steps' := FinishesAlone(w', a);
      ws, steps := [w] + ws', [s] + steps';
      assert ws[|steps|] == ws'[|steps'|];
    }
  }
}
