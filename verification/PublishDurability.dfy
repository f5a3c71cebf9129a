/** When a published file is there to stay, and what another publisher that has
    accepted it may lose. */
module PublishDurability {
  import opened Words
  import opened Directory
  import opened PublishProtocol

  /** A publisher that may still take back the file it linked: between its link
      and the end of its read-back, or already undoing the publication. */
  predicate Withdrawable(me: Proc) {
    || me.pc.UndoStat? || me.pc.UndoUnlink?
    || (me.published && (me.pc.Linked? || me.pc.TempStat? || me.pc.TempUnlink? || me.pc.ReadBack?))
  }

  /** The final name leads to an inode that publisher `q` created. */
  predicate FinalOf(s: Setting, w: World, q: nat) {
    && q < |w.procs| == |s.jobs| && s.final in w.dir.names && s.final !in s.start.names
    && w.dir.names[s.final] in w.owner && w.owner[w.dir.names[s.final]] == q
  }

  lemma FinalHasMaker(s: Setting, w: World) returns (q: nat)
    requires s.Valid() && Inv(s, w) && s.final in w.dir.names && s.final !in s.start.names
    ensures FinalOf(s, w, q) && w.procs[q].id == w.dir.names[s.final] && SightOf(s, w, q).final
  {
    assert NameOwned(s, w, s.final);
    q := w.owner[w.dir.names[s.final]];
    assert OwnerHolds(s, w, w.dir.names[s.final]);
  }

  // ---------- it stays ----------

  /** What the publisher of the final file may do without being withdrawable. */
  lemma KeepsItsFinal(s: Setting, w: World, q: nat, ch: Choice)
    requires s.Valid() && Inv(s, w) && FinalOf(s, w, q) && SightOf(s, w, q).final && !Withdrawable(w.procs[q])
    ensures var m := Plan(s.jobs[q], s.final, w.dir, w.procs[q], ch);
            !Withdrawable(m.proc) && (m.effect.Unlinks? ==> m.effect.name != s.final)
  {
    assert Local(s, w, q);
  }

  lemma StepKeepsFinal(s: Setting, w: World, p: nat, ch: Choice, q: nat)
    requires s.Valid() && Inv(s, w) && p < |s.jobs| && FinalOf(s, w, q) && !Withdrawable(w.procs[q])
    ensures var t := Step(s, w, p, ch); FinalOf(s, t, q) && !Withdrawable(t.procs[q])
  {
    var maker := FinalHasMaker(s, w);
    assert Local(s, w, p) && Local(s, w, q);
    var m := Plan(s.jobs[p], s.final, w.dir, w.procs[p], ch);
    PlansAreEntitled(s, w, p, ch);
    StepKeepsInv(s, w, p, ch);
    if p == q {
      KeepsItsFinal(s, w, q, ch);
    }
    assert m.effect.Unlinks? ==> m.effect.name != s.final;
  }

  lemma {:induction false} StandsFromThenOn(s: Setting, turns: seq<Turn>, more: seq<Turn>, q: nat)
    requires s.Valid() && FinalOf(s, Run(s, turns), q) && !Withdrawable(Run(s, turns).procs[q])
    ensures var t := Run(s, turns + more); FinalOf(s, t, q) && !Withdrawable(t.procs[q])
    decreases |more|
  {
    if more == [] {
      assert turns + more == turns;
    } else {
      var before, last := more[..|more| - 1], more[|more| - 1];
      assert (turns + more)[..|turns + more| - 1] == turns + before;
      StandsFromThenOn(s, turns, before, q);
      EveryRunKeepsInv(s, turns + before);
      if last.p < |s.jobs| {
        StepKeepsFinal(s, Run(s, turns + before), last.p, last.choice, q);
      }
    }
  }

  // ---------- one publisher moving alone ----------

  /** The directory and one publisher. */
  datatype View = View(dir: Dir, me: Proc)

  function Moved(job: Job, final: Name, v: View, ch: Choice): View {
    var m := Plan(job, final, v.dir, v.me, ch);
    View(Apply(v.dir, m.effect, ch.now), m.proc)
  }

  function Alone(job: Job, final: Name, v: View, choices: seq<Choice>): View {
    if choices == [] then v
    else Moved(job, final, Alone(job, final, v, choices[..|choices| - 1]), choices[|choices| - 1])
  }

  function TurnsOf(p: nat, choices: seq<Choice>): seq<Turn> {
    if choices == [] then [] else TurnsOf(p, choices[..|choices| - 1]) + [Turn(p, choices[|choices| - 1])]
  }

  lemma OneMore(job: Job, final: Name, v: View, choices: seq<Choice>, ch: Choice)
    ensures Alone(job, final, v, choices + [ch]) == Moved(job, final, Alone(job, final, v, choices), ch)
  {
    assert (choices + [ch])[..|choices|] == choices;
  }

  lemma OneMoreRun(s: Setting, turns: seq<Turn>, p: nat, ch: Choice)
    requires p < |s.jobs|
    ensures var w, t := Run(s, turns), Run(s, turns + [Turn(p, ch)]);
            && View(t.dir, t.procs[p]) == Moved(s.jobs[p], s.final, View(w.dir, w.procs[p]), ch)
            && forall q :: 0 <= q < |s.jobs| && q != p ==> t.procs[q] == w.procs[q]
  {
    assert (turns + [Turn(p, ch)])[..|turns|] == turns;
  }

  /** `t` comes from `w` by publisher `p` moving alone to `v`. */
  predicate OnlyMoved(w: World, t: World, p: nat, v: View)
    requires p < |w.procs| == |t.procs|
  {
    && View(t.dir, t.procs[p]) == v
    && forall q :: 0 <= q < |w.procs| && q != p ==> t.procs[q] == w.procs[q]
  }

  lemma OnlyMovedOnce(s: Setting, w: World, turns: seq<Turn>, p: nat, v: View, choices: seq<Choice>, ch: Choice)
    requires p < |s.jobs| == |w.procs|
    requires OnlyMoved(w, Run(s, turns), p, Alone(s.jobs[p], s.final, v, choices))
    ensures OnlyMoved(w, Run(s, turns + [Turn(p, ch)]), p, Alone(s.jobs[p], s.final, v, choices + [ch]))
  {
    OneMoreRun(s, turns, p, ch);
    OneMore(s.jobs[p], s.final, v, choices, ch);
  }

  lemma {:induction false} RunAlone(s: Setting, turns: seq<Turn>, p: nat, choices: seq<Choice>)
    requires p < |s.jobs|
    ensures var w := Run(s, turns);
            OnlyMoved(w, Run(s, turns + TurnsOf(p, choices)), p,
                      Alone(s.jobs[p], s.final, View(w.dir, w.procs[p]), choices))
    decreases |choices|
  {
    var w := Run(s, turns);
    if choices == [] {
      assert turns + TurnsOf(p, choices) == turns;
    } else {
      var front, last := choices[..|choices| - 1], choices[|choices| - 1];
      RunAlone(s, turns, p, front);
      OnlyMovedOnce(s, w, turns + TurnsOf(p, front), p, View(w.dir, w.procs[p]), front, last);
      assert front + [last] == choices;
      assert turns + TurnsOf(p, front) + [Turn(p, last)] == turns + TurnsOf(p, choices);
    }
  }

  // ---------- it goes ----------

  const FAILS := Choice(BeforeEffect, false, 0, 0, 0)
  const CALM := Choice(Clear, false, 0, 0, 0)

  /** The quickest way to take the final name back. */
  function Undoing(me: Proc): seq<Choice> {
    if me.pc.UndoUnlink? then [CALM] else if me.pc.UndoStat? then [CALM, CALM] else [FAILS, CALM, CALM]
  }

  lemma UndoBegins(job: Job, final: Name, v: View)
    requires Withdrawable(v.me) && !v.me.pc.UndoStat? && !v.me.pc.UndoUnlink?
    ensures var u := Moved(job, final, v, FAILS); u.dir == v.dir && u.me.id == v.me.id && u.me.pc.UndoStat?
  {
  }

  lemma UndoGoesOn(job: Job, final: Name, v: View)
    requires v.me.pc.UndoStat? && Names(v.dir, final, v.me.id)
    ensures var u := Moved(job, final, v, CALM); u.dir == v.dir && u.me.id == v.me.id && u.me.pc.UndoUnlink?
  {
  }

  lemma UndoEnds(job: Job, final: Name, v: View)
    requires v.me.pc.UndoUnlink? && v.dir.Resolves()
    ensures final !in Moved(job, final, v, CALM).dir.names
  {
  }

  lemma UndoneFromUnlink(job: Job, final: Name, v: View, choices: seq<Choice>, u: View)
    requires Alone(job, final, v, choices) == u && u.me.pc.UndoUnlink? && u.dir.Resolves()
    ensures final !in Alone(job, final, v, choices + [CALM]).dir.names
  {
    UndoEnds(job, final, u);
    OneMore(job, final, v, choices, CALM);
  }

  lemma UndoneFromStat(job: Job, final: Name, v: View, choices: seq<Choice>, u: View)
    requires Alone(job, final, v, choices) == u && u.me.pc.UndoStat? && u.dir.Resolves() && Names(u.dir, final, u.me.id)
    ensures final !in Alone(job, final, v, choices + [CALM] + [CALM]).dir.names
  {
    UndoGoesOn(job, final, u);
    OneMore(job, final, v, choices, CALM);
    UndoneFromUnlink(job, final, v, choices + [CALM], Moved(job, final, u, CALM));
  }

  lemma UndoneAlone(job: Job, final: Name, v: View, choices: seq<Choice>)
    requires v.dir.Resolves() && Names(v.dir, final, v.me.id) && Withdrawable(v.me) && choices == Undoing(v.me)
    ensures final !in Alone(job, final, v, choices).dir.names
  {
    if v.me.pc.UndoUnlink? {
      UndoneFromUnlink(job, final, v, [], v);
      assert [] + [CALM] == choices;
    } else if v.me.pc.UndoStat? {
      UndoneFromStat(job, final, v, [], v);
      assert [] + [CALM] + [CALM] == choices;
    } else {
      UndoBegins(job, final, v);
      OneMore(job, final, v, [], FAILS);
      UndoneFromStat(job, final, v, [] + [FAILS], Moved(job, final, v, FAILS));
      assert [] + [FAILS] + [CALM] + [CALM] == choices;
    }
  }

  /** A withdrawable file can be gone within three calls of its own publisher. */
  lemma Withdrawal(s: Setting, turns: seq<Turn>, q: nat)
    requires s.Valid() && FinalOf(s, Run(s, turns), q) && Withdrawable(Run(s, turns).procs[q])
    ensures var w := Run(s, turns);
            var t := Run(s, turns + TurnsOf(q, Undoing(w.procs[q])));
            s.final !in t.dir.names && forall p :: 0 <= p < |s.jobs| && p != q ==> t.procs[p] == w.procs[p]
  {
    EveryRunKeepsInv(s, turns);
    var w := Run(s, turns);
    var maker := FinalHasMaker(s, w);
    UndoneAlone(s.jobs[q], s.final, View(w.dir, w.procs[q]), Undoing(w.procs[q]));
    RunAlone(s, turns, q, Undoing(w.procs[q]));
  }

  /** At any point of any run, the final file stands for good iff the publisher
      that made it is not withdrawable. */
  lemma StandsForGoodIff(s: Setting, turns: seq<Turn>)
    requires s.Valid() && s.final !in s.start.names && s.final in Run(s, turns).dir.names
    ensures var w := Run(s, turns);
            && w.dir.names[s.final] in w.owner && w.owner[w.dir.names[s.final]] < |w.procs|
            && ((forall more :: s.final in Run(s, turns + more).dir.names)
                <==> !Withdrawable(w.procs[w.owner[w.dir.names[s.final]]]))
  {
    EveryRunKeepsInv(s, turns);
    var q := FinalHasMaker(s, Run(s, turns));
    if Withdrawable(Run(s, turns).procs[q]) {
      Withdrawal(s, turns, q);
    } else {
      forall more ensures s.final in Run(s, turns + more).dir.names {
        StandsFromThenOn(s, turns, more, q);
      }
    }
  }

  // ---------- an accepted file that goes ----------

  /** An unhindered publisher that writes its payload in one call. */
  function Calm(job: Job, id: Id): Choice {
    Choice(Clear, false, |job.payload|, id, 0)
  }

  function Calmly(job: Job, id: Id, n: nat): seq<Choice> {
    seq(n, _ => Calm(job, id))
  }

  function CalmAlone(job: Job, final: Name, v: View, id: Id, n: nat): View {
    Alone(job, final, v, Calmly(job, id, n))
  }

  /** One more call of a publisher that has come to `u`. */
  lemma CalmStep(job: Job, final: Name, v: View, id: Id, n: nat, u: View, x: View)
    requires CalmAlone(job, final, v, id, n) == u && Moved(job, final, u, Calm(job, id)) == x
    ensures CalmAlone(job, final, v, id, n + 1) == x
  {
    assert Calmly(job, id, n + 1) == Calmly(job, id, n) + [Calm(job, id)];
    OneMore(job, final, v, Calmly(job, id, n), Calm(job, id));
  }

  const IDLE := Proc(Begin, 0, false, false, false, false, false)

  /** Calls up to the one that links. */
  function Before(job: Job): nat { if job.payload == [] then 6 else 7 }

  function FileDir(d: Dir, name: Name, id: Id, bytes: Octets, mode: nat): Dir {
    Dir(d.names[name := id], d.inodes[id := Inode(true, bytes, mode, 1, 0, 0)])
  }

  function StagedDir(d: Dir, job: Job, id: Id): Dir {
    FileDir(d, job.staging, id, job.payload, MODE_0644)
  }

  /** A publisher with its descriptor open. */
  function Holding(pc: Pc, id: Id): Proc {
    Proc(pc, id, true, true, true, false, false)
  }

  lemma CreatesAlone(job: Job, final: Name, d: Dir, id: Id)
    requires job.staging !in d.names && id !in d.inodes
    ensures CalmAlone(job, final, View(d, IDLE), id, 3)
            == View(FileDir(d, job.staging, id, [], MODE_0644), Holding(Writing(0), id))
  {
    var v := View(d, IDLE);
    var created := FileDir(d, job.staging, id, [], MODE_0600);
    CalmStep(job, final, v, id, 0, v, View(created, IDLE.(pc := Opened, id := id)));
    CalmStep(job, final, v, id, 1, View(created, IDLE.(pc := Opened, id := id)), View(created, Holding(Chmod, id)));
    assert created.SetMode(id, MODE_0644, 0) == FileDir(d, job.staging, id, [], MODE_0644);
    CalmStep(job, final, v, id, 2, View(created, Holding(Chmod, id)),
             View(FileDir(d, job.staging, id, [], MODE_0644), Holding(Writing(0), id)));
  }

  lemma AppendsAll(d: Dir, job: Job, id: Id)
    ensures FileDir(d, job.staging, id, [], MODE_0644).Append(id, job.payload, 0) == StagedDir(d, job, id)
  {
    var empty := FileDir(d, job.staging, id, [], MODE_0644).inodes;
    assert [] + job.payload == job.payload;
    assert empty[id := empty[id].(bytes := job.payload)] == StagedDir(d, job, id).inodes;
  }

  lemma WritesAlone(job: Job, final: Name, d: Dir, id: Id)
    requires job.staging !in d.names && id !in d.inodes
    ensures CalmAlone(job, final, View(d, IDLE), id, Before(job) - 2)
            == View(StagedDir(d, job, id), Holding(Staged, id))
  {
    var v, empty := View(d, IDLE), FileDir(d, job.staging, id, [], MODE_0644);
    var all := |job.payload|;
    CreatesAlone(job, final, d, id);
    if all > 0 {
      AppendsAll(d, job, id);
      assert job.payload[0..all] == job.payload;
      CalmStep(job, final, v, id, 3, View(empty, Holding(Writing(0), id)),
               View(StagedDir(d, job, id), Holding(Writing(all), id)));
    }
    CalmStep(job, final, v, id, Before(job) - 3, View(StagedDir(d, job, id), Holding(Writing(all), id)),
             View(StagedDir(d, job, id), Holding(Staged, id)));
  }

  lemma StagesAlone(job: Job, final: Name, d: Dir, id: Id)
    requires job.staging !in d.names && id !in d.inodes
    ensures CalmAlone(job, final, View(d, IDLE), id, Before(job))
            == View(StagedDir(d, job, id), Proc(Linking, id, false, false, true, false, false))
  {
    var v, staged, n := View(d, IDLE), StagedDir(d, job, id), Before(job);
    WritesAlone(job, final, d, id);
    CalmStep(job, final, v, id, n - 2, View(staged, Holding(Staged, id)), View(staged, Holding(Closing, id)));
    CalmStep(job, final, v, id, n - 1, View(staged, Holding(Closing, id)),
             View(staged, Proc(Linking, id, false, false, true, false, false)));
  }

  /** The calls from the link to the unlink of the staging name, given what the
      link came to. */
  lemma UnlinksAlone(job: Job, final: Name, v: View, id: Id, n: nat, d: Dir, published: bool)
    requires Names(d, job.staging, id)
    requires CalmAlone(job, final, v, id, n) == View(d, Proc(Linked, id, false, false, true, published, false))
    ensures CalmAlone(job, final, v, id, n + 3)
            == View(d.Unlink(job.staging, 0), Proc(ReadBack, id, false, false, false, published, false))
  {
    var me := Proc(Linked, id, false, false, true, published, false);
    CalmStep(job, final, v, id, n, View(d, me), View(d, me.(pc := TempStat)));
    CalmStep(job, final, v, id, n + 1, View(d, me.(pc := TempStat)), View(d, me.(pc := TempUnlink)));
    CalmStep(job, final, v, id, n + 2, View(d, me.(pc := TempUnlink)),
             View(d.Unlink(job.staging, 0), me.(pc := ReadBack, tempExists := false)));
  }

  function PublishedDir(d: Dir, job: Job, final: Name, id: Id): Dir {
    FileDir(d, final, id, job.payload, MODE_0644)
  }

  lemma LinkedAndUnlinked(d: Dir, job: Job, final: Name, id: Id)
    requires job.staging !in d.names && final !in d.names && job.staging != final
    ensures StagedDir(d, job, id).Link(job.staging, final, 0).Unlink(job.staging, 0) == PublishedDir(d, job, final, id)
  {
    assert d.names[job.staging := id][final := id] - {job.staging} == d.names[final := id];
  }

  lemma StagedAndUnlinked(d: Dir, job: Job, id: Id)
    requires job.staging !in d.names && id !in d.inodes
    ensures StagedDir(d, job, id).Unlink(job.staging, 0) == d
  {
    assert d.names[job.staging := id] - {job.staging} == d.names;
    assert d.inodes[id := Inode(true, job.payload, MODE_0644, 1, 0, 0)] - {id} == d.inodes;
  }

  /** From the start to the read-back of a file the publisher has linked. */
  lemma PublishesAlone(job: Job, final: Name, d: Dir, id: Id)
    requires job.staging !in d.names && id !in d.inodes && final !in d.names && job.staging != final
    ensures CalmAlone(job, final, View(d, IDLE), id, Before(job) + 4)
            == View(PublishedDir(d, job, final, id), Proc(ReadBack, id, false, false, false, true, false))
  {
    var v, staged, n := View(d, IDLE), StagedDir(d, job, id), Before(job);
    var linked := staged.Link(job.staging, final, 0);
    StagesAlone(job, final, d, id);
    CalmStep(job, final, v, id, n, View(staged, Proc(Linking, id, false, false, true, false, false)),
             View(linked, Proc(Linked, id, false, false, true, true, false)));
    UnlinksAlone(job, final, v, id, n + 1, linked, true);
    LinkedAndUnlinked(d, job, final, id);
  }

  /** From the read-back of a publisher that linked nothing to its end. */
  lemma ReturnsAlone(job: Job, final: Name, v: View, id: Id, n: nat, d: Dir)
    requires CalmAlone(job, final, v, id, n) == View(d, Proc(ReadBack, id, false, false, false, false, false))
    ensures CalmAlone(job, final, v, id, n + 4) == View(d, Proc(Done, id, false, false, false, false, true))
  {
    var me := Proc(ReadBack, id, false, false, false, false, true);
    CalmStep(job, final, v, id, n, View(d, me.(ok := false)), View(d, me.(pc := CleanClose)));
    CalmStep(job, final, v, id, n + 1, View(d, me.(pc := CleanClose)), View(d, me.(pc := CleanStat)));
    CalmStep(job, final, v, id, n + 2, View(d, me.(pc := CleanStat)), View(d, me.(pc := LastSync)));
    CalmStep(job, final, v, id, n + 3, View(d, me.(pc := LastSync)), View(d, me.(pc := Done)));
  }

  /** From the start to the end of a publisher that finds the file there and
      accepts it: it leaves the directory as it was. */
  lemma AcceptsAlone(job: Job, final: Name, d: Dir, id: Id)
    requires job.staging !in d.names && id !in d.inodes && final in d.names
    ensures CalmAlone(job, final, View(d, IDLE), id, Before(job) + 8)
            == View(d, Proc(Done, id, false, false, false, false, true))
  {
    var v, staged, n := View(d, IDLE), StagedDir(d, job, id), Before(job);
    var me := Proc(Linking, id, false, false, true, false, false);
    StagesAlone(job, final, d, id);
    CalmStep(job, final, v, id, n, View(staged, me), View(staged, me.(pc := Linked)));
    UnlinksAlone(job, final, v, id, n + 1, staged, false);
    StagedAndUnlinked(d, job, id);
    ReturnsAlone(job, final, v, id, n + 4, d);
  }

  /** Publisher `p` up to its read-back, then all of publisher `q`. */
  function Meeting(s: Setting, p: nat, q: nat, a: Id, b: Id): seq<Turn>
    requires p < |s.jobs| && q < |s.jobs|
  {
    TurnsOf(p, Calmly(s.jobs[p], a, Before(s.jobs[p]) + 4)) + TurnsOf(q, Calmly(s.jobs[q], b, Before(s.jobs[q]) + 8))
  }

  lemma Met(s: Setting, p: nat, q: nat, a: Id, b: Id)
    requires s.Valid() && p < |s.jobs| && q < |s.jobs| && p != q
    requires s.final !in s.start.names && s.jobs[p].staging !in s.start.names && s.jobs[q].staging !in s.start.names
    requires a != b && a !in s.start.inodes && b !in s.start.inodes
    ensures var w := Run(s, Meeting(s, p, q, a, b));
            && w.dir == PublishedDir(s.start, s.jobs[p], s.final, a)
            && w.procs[p] == Proc(ReadBack, a, false, false, false, true, false)
            && w.procs[q] == Proc(Done, b, false, false, false, false, true)
  {
    var published := PublishedDir(s.start, s.jobs[p], s.final, a);
    var mine, theirs := Calmly(s.jobs[p], a, Before(s.jobs[p]) + 4), Calmly(s.jobs[q], b, Before(s.jobs[q]) + 8);
    assert [] + TurnsOf(p, mine) == TurnsOf(p, mine);
    RunAlone(s, [], p, mine);
    PublishesAlone(s.jobs[p], s.final, s.start, a);
    RunAlone(s, TurnsOf(p, mine), q, theirs);
    AcceptsAlone(s.jobs[q], s.final, published, b);
  }

  /** A publisher that accepts the file of another can lose it: whenever two
      publishers of one payload meet over an absent name, there is a run in which
      one has linked the file, the other accepts it and returns successfully, and
      a fault in the first one's read-back then makes the name absent. */
  lemma AcceptanceIsNotDurable(s: Setting, p: nat, q: nat, a: Id, b: Id)
    requires s.Valid() && p < |s.jobs| && q < |s.jobs| && p != q && s.jobs[p].payload == s.jobs[q].payload
    requires s.final !in s.start.names && s.jobs[p].staging !in s.start.names && s.jobs[q].staging !in s.start.names
    requires a != b && a !in s.start.inodes && b !in s.start.inodes
    ensures var turns := Meeting(s, p, q, a, b);
            var w, t := Run(s, turns), Run(s, turns + TurnsOf(p, [FAILS, CALM, CALM]));
            && w.procs[q].pc == Done && w.procs[q].ok && !w.procs[q].published && Stands(s, w.dir, q)
            && t.procs[q] == w.procs[q] && s.final !in t.dir.names
  {
    var turns := Meeting(s, p, q, a, b);
    EveryRunKeepsInv(s, turns);
    Met(s, p, q, a, b);
    assert Local(s, Run(s, turns), p);
    Withdrawal(s, turns, p);
  }

  /** Two publishers of an empty file "f" in an empty directory. */
  const PAIR := Setting("f", [Job("a", []), Job("b", [])], Dir(map[], map[]))

  lemma PairLosesItsFile()
    ensures var turns := Meeting(PAIR, 0, 1, 0, 1);
            var w, t := Run(PAIR, turns), Run(PAIR, turns + TurnsOf(0, [FAILS, CALM, CALM]));
            && w.procs[1].pc == Done && w.procs[1].ok && !w.procs[1].published && "f" in w.dir.names
            && t.procs[1] == w.procs[1] && "f" !in t.dir.names
  {
    AcceptanceIsNotDurable(PAIR, 0, 1, 0, 1);
  }
}
