/** Any number of publishers of one final name, interleaved call by call, with a
    fault possible at every call, before or after its effect. */
module PublishProtocol {
  import opened Words
  import opened Directory

  datatype Job = Job(staging: Name, payload: Octets)

  datatype Setting = Setting(final: Name, jobs: seq<Job>, start: Dir) {
    predicate Valid() {
      && start.Resolves()
      && (forall i, j :: 0 <= i < j < |jobs| ==> jobs[i].staging != jobs[j].staging)
      && (forall i :: 0 <= i < |jobs| ==> jobs[i].staging != final)
    }
  }

  /** The call a publisher makes next.  Calls that only look at the directory
      and whose answer leads nowhere but onwards or into failure are one point. */
  datatype Pc =
    | Begin | Opened | Chmod | Writing(done: nat) | Staged | Closing | Linking
    | Linked | TempStat | TempUnlink | ReadBack
    | UndoStat | UndoUnlink
    | CleanClose | CleanStat | CleanUnlink | LastSync | Done

  /** The publisher's own variables; `fdOpen` is the descriptor's real state. */
  datatype Proc = Proc(pc: Pc, id: Id, descriptorOpen: bool, fdOpen: bool, tempExists: bool, published: bool, ok: bool)

  datatype Fault = Clear | BeforeEffect | AfterEffect

  /** The environment's part in a step.  `refuse` lets any authentication or
      read-back reject, whatever the directory holds. */
  datatype Choice = Choice(fault: Fault, refuse: bool, amount: nat, newId: Id, now: int)

  datatype Effect =
    | Quiet
    | Creates(name: Name, id: Id)
    | SetsMode(id: Id)
    | Appends(id: Id, data: Octets)
    | Links(from: Name, to: Name)
    | Unlinks(name: Name)

  datatype Move = Move(effect: Effect, proc: Proc)

  function Attempt(ch: Choice, effect: Effect, then_: Proc, raised: Proc): Move {
    match ch.fault
    case Clear => Move(effect, then_)
    case BeforeEffect => Move(Quiet, raised)
    case AfterEffect => Move(effect, raised)
  }

  /** The inner except clause undoes a publication; the finally clause follows. */
  function Raise(p: Proc): Proc {
    p.(ok := false, pc := if p.published then UndoStat else CleanClose)
  }

  function Check(ch: Choice, p: Proc, then_: Pc): Move {
    Move(Quiet, if ch.fault != Clear || ch.refuse then Raise(p) else p.(pc := then_))
  }

  predicate Names(d: Dir, name: Name, id: Id) {
    name in d.names && d.names[name] == id
  }

  function Plan(job: Job, final: Name, d: Dir, p: Proc, ch: Choice): Move {
    match p.pc
    case Begin =>
      if job.staging in d.names || ch.newId in d.inodes || ch.fault == BeforeEffect
      then Move(Quiet, p.(pc := Done, ok := false))
      else Move(Creates(job.staging, ch.newId), p.(pc := if ch.fault == Clear then Opened else Done, id := ch.newId))
    case Opened =>
      Move(Quiet, if ch.fault != Clear then p.(pc := Done, ok := false)
                  else p.(pc := Chmod, descriptorOpen := true, fdOpen := true, tempExists := true))
    case Chmod => Attempt(ch, SetsMode(p.id), p.(pc := Writing(0)), Raise(p))
    case Writing(done) =>
      if done >= |job.payload| then Move(Quiet, p.(pc := Staged))
      else
        var n := Min(|job.payload| - done, ch.amount + 1);
        Attempt(ch, Appends(p.id, job.payload[done..done + n]), p.(pc := Writing(done + n)), Raise(p))
    case Staged => Check(ch, p, Closing)
    case Closing =>
      Move(Quiet, if ch.fault == Clear then p.(pc := Linking, descriptorOpen := false, fdOpen := false)
                  else Raise(p.(fdOpen := ch.fault == BeforeEffect)))
    case Linking =>
      if final in d.names then Check(ch, p, Linked)
      else Attempt(ch, Links(job.staging, final), p.(pc := Linked, published := true), Raise(p))
    case Linked => Check(ch, p, TempStat)
    case TempStat =>
      Move(Quiet, if ch.fault != Clear || !Names(d, job.staging, p.id) then Raise(p) else p.(pc := TempUnlink))
    case TempUnlink => Attempt(ch, Unlinks(job.staging), p.(pc := ReadBack, tempExists := false), Raise(p))
    case ReadBack => Move(Quiet, if ch.fault != Clear || ch.refuse then Raise(p) else p.(pc := CleanClose, ok := true))
    case UndoStat =>
      Move(Quiet, p.(pc := if ch.fault != Clear || !Names(d, final, p.id) then CleanClose else UndoUnlink))
    case UndoUnlink => Attempt(ch, Unlinks(final), p.(pc := CleanClose), p.(pc := CleanClose))
    case CleanClose =>
      Move(Quiet, if !p.descriptorOpen then p.(pc := CleanStat)
                  else if !p.fdOpen || ch.fault != Clear then p.(pc := Done, ok := false)
                  else p.(pc := CleanStat, fdOpen := false))
    case CleanStat =>
      Move(Quiet, p.(pc := if p.tempExists && ch.fault == Clear && Names(d, job.staging, p.id) then CleanUnlink else LastSync))
    case CleanUnlink => Attempt(ch, Unlinks(job.staging), p.(pc := LastSync), p.(pc := LastSync))
    case LastSync => Move(Quiet, p.(pc := Done, ok := p.ok && ch.fault == Clear))
    case Done => Move(Quiet, p)
  }

  function Apply(d: Dir, e: Effect, now: int): Dir {
    match e
    case Quiet => d
    case Creates(name, id) => d.Create(name, id, now)
    case SetsMode(id) => d.SetMode(id, MODE_0644, now)
    case Appends(id, data) => d.Append(id, data, now)
    case Links(from, to) => d.Link(from, to, now)
    case Unlinks(name) => d.Unlink(name, now)
  }

  /** `owner` remembers who created each live inode; no publisher reads it. */
  datatype World = World(dir: Dir, procs: seq<Proc>, owner: map<Id, nat>)

  function Remember(owner: map<Id, nat>, e: Effect, p: nat, after: Dir): map<Id, nat> {
    match e
    case Creates(_, id) => owner[id := p]
    case Unlinks(_) => map id | id in owner && id in after.inodes :: owner[id]
    case _ => owner
  }

  function Initial(s: Setting): World {
    World(s.start, seq(|s.jobs|, _ => Proc(Begin, 0, false, false, false, false, false)), map[])
  }

  function Carry(w: World, p: nat, m: Move, now: int): World
    requires p < |w.procs|
  {
    var after := Apply(w.dir, m.effect, now);
    World(after, w.procs[p := m.proc], Remember(w.owner, m.effect, p, after))
  }

  function Step(s: Setting, w: World, p: nat, ch: Choice): World
    requires p < |w.procs| == |s.jobs|
  {
    Carry(w, p, Plan(s.jobs[p], s.final, w.dir, w.procs[p], ch), ch.now)
  }

  datatype Turn = Turn(p: nat, choice: Choice)

  function Run(s: Setting, turns: seq<Turn>): (w: World)
    ensures |w.procs| == |s.jobs|
  {
    if turns == [] then Initial(s)
    else
      var w := Run(s, turns[..|turns| - 1]);
      var t := turns[|turns| - 1];
      if t.p < |s.jobs| then Step(s, w, t.p, t.choice) else w
  }

  // ---------- the invariant ----------

  predicate Mine(w: World, p: nat)
    requires p < |w.procs|
  {
    w.procs[p].id in w.owner && w.owner[w.procs[p].id] == p
  }

  /** What of the directory concerns one publisher: whether it still owns its
      inode, which names lead there, and what is in it. */
  datatype Sight = Sight(mine: bool, staging: bool, final: bool, bytes: Octets, mode: nat)

  function SightOf(s: Setting, w: World, p: nat): Sight
    requires p < |w.procs| == |s.jobs| && w.dir.Resolves()
  {
    var id := w.procs[p].id;
    var staging := Mine(w, p) && Names(w.dir, s.jobs[p].staging, id);
    var final := Mine(w, p) && Names(w.dir, s.final, id);
    if staging || final then Sight(Mine(w, p), staging, final, w.dir.inodes[id].bytes, w.dir.inodes[id].mode)
    else Sight(Mine(w, p), false, false, [], 0)
  }

  predicate Untouched(s: Setting, d: Dir) {
    && (forall n :: n in s.start.names ==> Names(d, n, s.start.names[n]))
    && (forall id :: id in s.start.inodes ==> id in d.inodes && d.inodes[id] == s.start.inodes[id])
  }

  predicate NameOwned(s: Setting, w: World, n: Name) {
    n in w.dir.names && n !in s.start.names ==>
      && w.dir.names[n] in w.owner
      && var q := w.owner[w.dir.names[n]];
         q < |s.jobs| && (n == s.jobs[q].staging || n == s.final)
  }

  predicate OwnerHolds(s: Setting, w: World, id: Id)
    requires |w.procs| == |s.jobs|
  {
    id in w.owner ==>
      && id in w.dir.inodes && id !in s.start.inodes
      && w.owner[id] < |w.procs| && w.procs[w.owner[id]].id == id && w.procs[w.owner[id]].pc != Begin
      && w.dir.inodes[id].nlink == (if Names(w.dir, s.jobs[w.owner[id]].staging, id) then 1 else 0)
                                   + (if Names(w.dir, s.final, id) then 1 else 0)
  }

  predicate BeforeLink(pc: Pc) {
    pc.Opened? || pc.Chmod? || pc.Writing? || pc.Staged? || pc.Closing? || pc.Linking?
  }

  predicate NeedsStaging(pc: Pc) {
    BeforeLink(pc) || pc.TempUnlink? || pc.CleanUnlink?
  }

  predicate Finishing(pc: Pc) {
    pc.CleanClose? || pc.CleanStat? || pc.CleanUnlink? || pc.LastSync? || pc.Done?
  }

  /** A publication that stands, or that is about to be undone. */
  predicate NeedsFinal(me: Proc) {
    me.pc.UndoStat? || me.pc.UndoUnlink? || (me.published && (!Finishing(me.pc) || me.ok))
  }

  predicate Written(payload: Octets, pc: Pc, v: Sight) {
    match pc
    case Opened | Chmod => v.bytes == []
    case Writing(done) => done <= |payload| && v.bytes == payload[..done] && v.mode == MODE_0644
    case _ => v.bytes == payload && v.mode == MODE_0644
  }

  predicate Fits(payload: Octets, me: Proc, v: Sight) {
    && (me.pc == Begin ==> !v.mine)
    && (me.pc == Begin || BeforeLink(me.pc) ==> !me.published)
    && (NeedsStaging(me.pc) ==> v.staging)
    && (BeforeLink(me.pc) ==> !v.final && Written(payload, me.pc, v))
    && (v.final ==> Written(payload, Linked, v))
    && (NeedsFinal(me) ==> v.final)
    && (me.pc.ReadBack? || me.ok ==> !v.staging)
    && (me.ok ==> Finishing(me.pc))
  }

  predicate Local(s: Setting, w: World, p: nat)
    requires p < |w.procs| == |s.jobs| && w.dir.Resolves()
  {
    && Fits(s.jobs[p].payload, w.procs[p], SightOf(s, w, p))
    && (w.procs[p].pc != Begin && w.procs[p].pc != Done ==> s.jobs[p].staging !in s.start.names)
  }

  ghost predicate Inv(s: Setting, w: World) {
    && |w.procs| == |s.jobs| && w.dir.Resolves()
    && Untouched(s, w.dir)
    && (forall n :: NameOwned(s, w, n))
    && (forall id :: OwnerHolds(s, w, id))
    && (forall p :: 0 <= p < |s.jobs| ==> Local(s, w, p))
  }

  // ---------- every step keeps it ----------

  /** What a publisher is entitled to do to the directory. */
  predicate Entitled(s: Setting, w: World, p: nat, m: Move)
    requires p < |w.procs| == |s.jobs| && w.dir.Resolves()
  {
    var id := w.procs[p].id;
    var v := SightOf(s, w, p);
    match m.effect
    case Quiet => m.proc.id == id && (w.procs[p].pc != Begin ==> m.proc.pc != Begin)
    case Creates(n, i) => w.procs[p].pc == Begin && n == s.jobs[p].staging && n !in w.dir.names
                          && i !in w.dir.inodes && m.proc.id == i && m.proc.pc != Begin
    case SetsMode(i) => i == m.proc.id == id && m.proc.pc != Begin && v.staging && !v.final
    case Appends(i, _) => i == m.proc.id == id && m.proc.pc != Begin && v.staging && !v.final
    case Links(from, to) => from == s.jobs[p].staging && to == s.final && m.proc.id == id && m.proc.pc != Begin
                            && v.staging && to !in w.dir.names
    case Unlinks(n) => m.proc.id == id && m.proc.pc != Begin
                       && ((n == s.jobs[p].staging && v.staging) || (n == s.final && v.final))
  }

  lemma PlansAreEntitled(s: Setting, w: World, p: nat, ch: Choice)
    requires p < |w.procs| == |s.jobs| && w.dir.Resolves() && Local(s, w, p)
    ensures Entitled(s, w, p, Plan(s.jobs[p], s.final, w.dir, w.procs[p], ch))
  {
  }

  lemma UntouchedKept(s: Setting, w: World, p: nat, m: Move, now: int)
    requires p < |w.procs| == |s.jobs| && w.dir.Resolves() && Untouched(s, w.dir) && Entitled(s, w, p, m)
    requires s.start.Resolves() && OwnerHolds(s, w, w.procs[p].id)
    ensures Untouched(s, Carry(w, p, m, now).dir)
  {
  }

  /** An inode is dropped only with the last of its names. */
  lemma ResolvesKept(s: Setting, w: World, p: nat, m: Move, now: int)
    requires s.Valid() && Inv(s, w) && p < |s.jobs| && Entitled(s, w, p, m)
    ensures Carry(w, p, m, now).dir.Resolves()
  {
    var id := w.procs[p].id;
    assert OwnerHolds(s, w, id);
    forall n | n in w.dir.names && w.dir.names[n] == id && Mine(w, p) ensures n == s.jobs[p].staging || n == s.final {
      assert NameOwned(s, w, n);
    }
  }

  lemma NameKept(s: Setting, w: World, p: nat, m: Move, now: int, n: Name)
    requires p < |w.procs| == |s.jobs| && w.dir.Resolves() && Entitled(s, w, p, m) && NameOwned(s, w, n)
    requires Carry(w, p, m, now).dir.Resolves()
    ensures NameOwned(s, Carry(w, p, m, now), n)
  {
  }

  lemma OwnerKept(s: Setting, w: World, p: nat, m: Move, now: int, id: Id)
    requires p < |w.procs| == |s.jobs| && w.dir.Resolves() && Entitled(s, w, p, m)
    requires OwnerHolds(s, w, id) && OwnerHolds(s, w, w.procs[p].id) && Untouched(s, w.dir)
    requires s.jobs[p].staging != s.final
    requires id in w.owner && w.owner[id] != p ==> s.jobs[w.owner[id]].staging != s.jobs[p].staging
    ensures OwnerHolds(s, Carry(w, p, m, now), id)
  {
  }

  lemma OthersKeptByWrites(s: Setting, w: World, p: nat, m: Move, now: int, q: nat)
    requires p < |w.procs| == |s.jobs| && w.dir.Resolves() && Entitled(s, w, p, m)
    requires q < |s.jobs| && q != p && OwnerHolds(s, w, w.procs[q].id) && Carry(w, p, m, now).dir.Resolves()
    requires s.jobs[p].staging != s.jobs[q].staging && s.jobs[p].staging != s.final && s.jobs[q].staging != s.final
    requires m.effect.Quiet? || m.effect.SetsMode? || m.effect.Appends?
    ensures SightOf(s, Carry(w, p, m, now), q) == SightOf(s, w, q)
  {
  }

  lemma OthersKeptByNames(s: Setting, w: World, p: nat, m: Move, now: int, q: nat)
    requires p < |w.procs| == |s.jobs| && w.dir.Resolves() && Entitled(s, w, p, m)
    requires q < |s.jobs| && q != p && OwnerHolds(s, w, w.procs[q].id) && Carry(w, p, m, now).dir.Resolves()
    requires s.jobs[p].staging != s.jobs[q].staging && s.jobs[p].staging != s.final && s.jobs[q].staging != s.final
    requires m.effect.Creates? || m.effect.Links? || m.effect.Unlinks?
    ensures SightOf(s, Carry(w, p, m, now), q) == SightOf(s, w, q)
  {
  }

  lemma OthersKept(s: Setting, w: World, p: nat, m: Move, now: int, q: nat)
    requires p < |w.procs| == |s.jobs| && w.dir.Resolves() && Entitled(s, w, p, m)
    requires q < |s.jobs| && q != p && OwnerHolds(s, w, w.procs[q].id) && Carry(w, p, m, now).dir.Resolves()
    requires s.jobs[p].staging != s.jobs[q].staging && s.jobs[p].staging != s.final && s.jobs[q].staging != s.final
    ensures SightOf(s, Carry(w, p, m, now), q) == SightOf(s, w, q)
  {
    match m.effect
    case Quiet | SetsMode(_) | Appends(_, _) => OthersKeptByWrites(s, w, p, m, now, q);
    case _ => OthersKeptByNames(s, w, p, m, now, q);
  }

  /** How a move changes what its own publisher sees. */
  predicate Seen(s: Setting, p: nat, v: Sight, e: Effect, u: Sight)
    requires p < |s.jobs|
  {
    match e
    case Quiet => u == v
    case Creates(_, _) => u == Sight(true, true, false, [], MODE_0600)
    case SetsMode(_) => u == v.(mode := MODE_0644)
    case Appends(_, data) => u == v.(bytes := v.bytes + data)
    case Links(_, _) => u == v.(final := true)
    case Unlinks(n) =>
      if n == s.final then !u.final && u.staging == v.staging
      else !u.staging && u.final == v.final && (v.final ==> u == v.(staging := false))
  }

  lemma MoverSees(s: Setting, w: World, p: nat, m: Move, now: int)
    requires p < |w.procs| == |s.jobs| && w.dir.Resolves() && Entitled(s, w, p, m) && s.jobs[p].staging != s.final
    requires OwnerHolds(s, w, w.procs[p].id) && Carry(w, p, m, now).dir.Resolves()
    ensures Seen(s, p, SightOf(s, w, p), m.effect, SightOf(s, Carry(w, p, m, now), p))
  {
  }

  lemma CreatorFits(s: Setting, p: nat, d: Dir, me: Proc, ch: Choice, v: Sight, u: Sight)
    requires p < |s.jobs| && Fits(s.jobs[p].payload, me, v) && s.jobs[p].staging != s.final
    requires me.pc.Begin? || me.pc.Opened?
    requires Seen(s, p, v, Plan(s.jobs[p], s.final, d, me, ch).effect, u)
    ensures Fits(s.jobs[p].payload, Plan(s.jobs[p], s.final, d, me, ch).proc, u)
  {
  }

  lemma ChmodFits(s: Setting, p: nat, d: Dir, me: Proc, ch: Choice, v: Sight, u: Sight)
    requires p < |s.jobs| && Fits(s.jobs[p].payload, me, v) && s.jobs[p].staging != s.final
    requires me.pc.Chmod?
    requires Seen(s, p, v, Plan(s.jobs[p], s.final, d, me, ch).effect, u)
    ensures Fits(s.jobs[p].payload, Plan(s.jobs[p], s.final, d, me, ch).proc, u)
  {
  }

  lemma WriterFits(s: Setting, p: nat, d: Dir, me: Proc, ch: Choice, v: Sight, u: Sight)
    requires p < |s.jobs| && Fits(s.jobs[p].payload, me, v) && s.jobs[p].staging != s.final
    requires me.pc.Writing?
    requires Seen(s, p, v, Plan(s.jobs[p], s.final, d, me, ch).effect, u)
    ensures Fits(s.jobs[p].payload, Plan(s.jobs[p], s.final, d, me, ch).proc, u)
  {
    var payload, done := s.jobs[p].payload, me.pc.done;
    if done < |payload| {
      var n := Min(|payload| - done, ch.amount + 1);
      assert payload[..done] + payload[done..done + n] == payload[..done + n];
    } else {
      assert payload[..done] == payload;
    }
  }

  lemma LinkerFits(s: Setting, p: nat, d: Dir, me: Proc, ch: Choice, v: Sight, u: Sight)
    requires p < |s.jobs| && Fits(s.jobs[p].payload, me, v) && s.jobs[p].staging != s.final
    requires me.pc.Staged? || me.pc.Closing? || me.pc.Linking?
    requires Seen(s, p, v, Plan(s.jobs[p], s.final, d, me, ch).effect, u)
    ensures Fits(s.jobs[p].payload, Plan(s.jobs[p], s.final, d, me, ch).proc, u)
  {
  }

  lemma AuthenticatorFits(s: Setting, p: nat, d: Dir, me: Proc, ch: Choice, v: Sight, u: Sight)
    requires p < |s.jobs| && Fits(s.jobs[p].payload, me, v) && s.jobs[p].staging != s.final
    requires me.pc.Linked? || me.pc.TempStat?
    requires Names(d, s.jobs[p].staging, me.id) ==> v.staging
    requires Seen(s, p, v, Plan(s.jobs[p], s.final, d, me, ch).effect, u)
    ensures Fits(s.jobs[p].payload, Plan(s.jobs[p], s.final, d, me, ch).proc, u)
  {
  }

  lemma UnlinkerFits(s: Setting, p: nat, d: Dir, me: Proc, ch: Choice, v: Sight, u: Sight)
    requires p < |s.jobs| && Fits(s.jobs[p].payload, me, v) && s.jobs[p].staging != s.final
    requires me.pc.TempUnlink? || me.pc.ReadBack? || me.pc.UndoStat? || me.pc.UndoUnlink?
    requires Names(d, s.jobs[p].staging, me.id) ==> v.staging
    requires Seen(s, p, v, Plan(s.jobs[p], s.final, d, me, ch).effect, u)
    ensures Fits(s.jobs[p].payload, Plan(s.jobs[p], s.final, d, me, ch).proc, u)
  {
  }

  lemma CleanerFits(s: Setting, p: nat, d: Dir, me: Proc, ch: Choice, v: Sight, u: Sight)
    requires p < |s.jobs| && Fits(s.jobs[p].payload, me, v) && s.jobs[p].staging != s.final
    requires me.pc.CleanClose? || me.pc.CleanStat?
    requires Names(d, s.jobs[p].staging, me.id) ==> v.staging
    requires Seen(s, p, v, Plan(s.jobs[p], s.final, d, me, ch).effect, u)
    ensures Fits(s.jobs[p].payload, Plan(s.jobs[p], s.final, d, me, ch).proc, u)
  {
  }

  lemma FinisherFits(s: Setting, p: nat, d: Dir, me: Proc, ch: Choice, v: Sight, u: Sight)
    requires p < |s.jobs| && Fits(s.jobs[p].payload, me, v) && s.jobs[p].staging != s.final
    requires me.pc.CleanUnlink? || me.pc.LastSync? || me.pc.Done?
    requires Seen(s, p, v, Plan(s.jobs[p], s.final, d, me, ch).effect, u)
    ensures Fits(s.jobs[p].payload, Plan(s.jobs[p], s.final, d, me, ch).proc, u)
  {
  }

  lemma MoverFits(s: Setting, p: nat, d: Dir, me: Proc, ch: Choice, v: Sight, u: Sight)
    requires p < |s.jobs| && Fits(s.jobs[p].payload, me, v) && s.jobs[p].staging != s.final
    requires Names(d, s.jobs[p].staging, me.id) && me.pc != Begin && me.pc != Done ==> v.staging
    requires Seen(s, p, v, Plan(s.jobs[p], s.final, d, me, ch).effect, u)
    ensures Fits(s.jobs[p].payload, Plan(s.jobs[p], s.final, d, me, ch).proc, u)
  {
    match me.pc
    case Begin | Opened => CreatorFits(s, p, d, me, ch, v, u);
    case Chmod => ChmodFits(s, p, d, me, ch, v, u);
    case Writing(_) => WriterFits(s, p, d, me, ch, v, u);
    case Staged | Closing | Linking => LinkerFits(s, p, d, me, ch, v, u);
    case Linked | TempStat => AuthenticatorFits(s, p, d, me, ch, v, u);
    case TempUnlink | ReadBack | UndoStat | UndoUnlink => UnlinkerFits(s, p, d, me, ch, v, u);
    case CleanClose | CleanStat => CleanerFits(s, p, d, me, ch, v, u);
    case CleanUnlink | LastSync | Done => FinisherFits(s, p, d, me, ch, v, u);
  }

  lemma MoverKept(s: Setting, w: World, p: nat, ch: Choice)
    requires s.Valid() && Inv(s, w) && p < |s.jobs| && Step(s, w, p, ch).dir.Resolves()
    ensures Local(s, Step(s, w, p, ch), p)
  {
    var me, t := w.procs[p], Step(s, w, p, ch);
    var v, u := SightOf(s, w, p), SightOf(s, t, p);
    assert Local(s, w, p) && OwnerHolds(s, w, me.id) && NameOwned(s, w, s.jobs[p].staging);
    PlansAreEntitled(s, w, p, ch);
    MoverSees(s, w, p, Plan(s.jobs[p], s.final, w.dir, me, ch), ch.now);
    MoverFits(s, p, w.dir, me, ch, v, u);
  }

  lemma StepKeepsInv(s: Setting, w: World, p: nat, ch: Choice)
    requires s.Valid() && Inv(s, w) && p < |s.jobs|
    ensures Inv(s, Step(s, w, p, ch))
  {
    var m := Plan(s.jobs[p], s.final, w.dir, w.procs[p], ch);
    var t := Step(s, w, p, ch);
    var staging := s.jobs[p].staging;
    PlansAreEntitled(s, w, p, ch);
    UntouchedKept(s, w, p, m, ch.now);
    ResolvesKept(s, w, p, m, ch.now);
    forall n ensures NameOwned(s, t, n) {
      NameKept(s, w, p, m, ch.now, n);
    }
    forall id ensures OwnerHolds(s, t, id) {
      assert OwnerHolds(s, w, id);
      OwnerKept(s, w, p, m, ch.now, id);
    }
    forall q | 0 <= q < |s.jobs| ensures Local(s, t, q) {
      if q != p {
        assert Local(s, w, q) && OwnerHolds(s, w, w.procs[q].id);
        OthersKept(s, w, p, m, ch.now, q);
      } else {
        MoverKept(s, w, p, ch);
      }
    }
  }

  // ---------- every run ----------

  lemma {:induction false} EveryRunKeepsInv(s: Setting, turns: seq<Turn>)
    requires s.Valid()
    ensures Inv(s, Run(s, turns))
    decreases |turns|
  {
    if turns == [] {
      var w := Initial(s);
      assert forall p :: 0 <= p < |s.jobs| ==> w.procs[p] == Proc(Begin, 0, false, false, false, false, false);
    } else {
      var before := turns[..|turns| - 1];
      EveryRunKeepsInv(s, before);
      var t := turns[|turns| - 1];
      if t.p < |s.jobs| {
        StepKeepsInv(s, Run(s, before), t.p, t.choice);
      }
    }
  }

  ghost predicate OnePayload(s: Setting, i: Inode) {
    i.mode == MODE_0644 && exists p :: 0 <= p < |s.jobs| && i.bytes == s.jobs[p].payload
  }

  /** At every moment of every run the final name is its untouched earlier self,
      absent, or one publisher's whole payload at mode 0644. */
  lemma FinalIsNeverPartial(s: Setting, turns: seq<Turn>)
    requires s.Valid()
    ensures var d := Run(s, turns).dir;
            if s.final in s.start.names
            then Names(d, s.final, s.start.names[s.final])
                 && d.StatId(s.start.names[s.final]) == s.start.Stat(s.final)
                 && d.inodes[d.names[s.final]] == s.start.inodes[s.start.names[s.final]]
            else s.final in d.names ==> d.names[s.final] in d.inodes && OnePayload(s, d.inodes[d.names[s.final]])
  {
    EveryRunKeepsInv(s, turns);
    var w := Run(s, turns);
    if s.final !in s.start.names && s.final in w.dir.names {
      assert NameOwned(s, w, s.final);
      var id := w.dir.names[s.final];
      var q := w.owner[id];
      assert OwnerHolds(s, w, id) && Local(s, w, q);
    }
  }

  /** A step removes only names of the inode its own publisher created, and
      changes no other inode. */
  lemma OnlyOwnInodes(s: Setting, turns: seq<Turn>, p: nat, ch: Choice)
    requires s.Valid() && p < |s.jobs|
    ensures var w := Run(s, turns);
            var t := Step(s, w, p, ch);
      && (forall n :: n in w.dir.names && n !in t.dir.names ==> w.dir.names[n] in w.owner && w.owner[w.dir.names[n]] == p)
      && (forall n :: n in w.dir.names && n in t.dir.names ==> t.dir.names[n] == w.dir.names[n])
      && (forall id :: id in w.dir.inodes && !(id in w.owner && w.owner[id] == p) ==>
                         id in t.dir.inodes && t.dir.inodes[id] == w.dir.inodes[id])
  {
    var w := Run(s, turns);
    EveryRunKeepsInv(s, turns);
    assert Local(s, w, p);
    PlansAreEntitled(s, w, p, ch);
  }

  lemma {:induction false} DoneStaysDone(s: Setting, turns: seq<Turn>, more: seq<Turn>, p: nat)
    requires p < |s.jobs| && Run(s, turns).procs[p].pc == Done
    ensures Run(s, turns + more).procs[p] == Run(s, turns).procs[p]
    decreases |more|
  {
    if more == [] {
      assert turns + more == turns;
    } else {
      var before := more[..|more| - 1];
      assert (turns + more)[..|turns + more| - 1] == turns + before;
      DoneStaysDone(s, turns, before, p);
    }
  }

  /** The final name is the publisher's whole payload, and its only name. */
  predicate Stands(s: Setting, d: Dir, p: nat)
    requires p < |s.jobs|
  {
    && s.final in d.names && d.names[s.final] in d.inodes
    && (s.jobs[p].staging in d.names ==> s.jobs[p].staging in s.start.names)
    && var i := d.inodes[d.names[s.final]];
       i.bytes == s.jobs[p].payload && i.mode == MODE_0644 && i.nlink == 1
  }

  lemma PublishedStands(s: Setting, w: World, p: nat)
    requires s.Valid() && Inv(s, w) && p < |s.jobs|
    requires w.procs[p].published && (w.procs[p].pc == ReadBack || w.procs[p].ok)
    ensures Stands(s, w.dir, p)
  {
    var staging := s.jobs[p].staging;
    assert Local(s, w, p) && OwnerHolds(s, w, w.procs[p].id) && NameOwned(s, w, staging);
    assert OwnerHolds(s, w, if staging in w.dir.names then w.dir.names[staging] else 0);
  }

  /** A publication reported as a success is never withdrawn, by anyone. */
  lemma SuccessIsDurable(s: Setting, turns: seq<Turn>, more: seq<Turn>, p: nat)
    requires s.Valid() && p < |s.jobs|
    requires var me := Run(s, turns).procs[p]; me.pc == Done && me.ok && me.published
    ensures Stands(s, Run(s, turns + more).dir, p)
  {
    DoneStaysDone(s, turns, more, p);
    EveryRunKeepsInv(s, turns + more);
    PublishedStands(s, Run(s, turns + more), p);
  }
}
