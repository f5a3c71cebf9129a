/** The workspace archive: the bounded buffer it is written into, the meaning of
    a whole pre-order walk, and when the result is WRITTEN or OVERFLOW. */
module Archive {
  import opened Options
  import opened Words
  import opened Workspace
  import SupervisorMain

  const MAX_DEPTH := 64
  const MAX_ENTRIES := 4096
  const MAX_PATH := 4096
  const MAX_REGULAR := 0x10_0000
  const MAX_TARGET := 4096
  const MAX_TOTAL := 0x100_0000
  const MAX_CAP := 0x400_0000

  // ---------- the format ----------

  /** "CBDSWSN1", version 1, and the entry count. */
  function Preamble(count: nat): (r: Octets)
    ensures |r| == 16
  {
    [67, 66, 68, 83, 87, 83, 78, 49] + LittleEndian(1, 4) + LittleEndian(count, 4)
  }

  function Code(kind: Kind): Byte {
    match kind
    case DirectoryKind => 1
    case RegularKind => 2
    case SymlinkKind => 3
    case SpecialKind => 0
  }

  function EncodedHeader(e: Entry): (r: Octets)
    ensures |r| == 20 + |e.path|
  {
    [Code(e.item.kind), 0, 0, 0] + LittleEndian(e.item.mode, 4) + LittleEndian(|e.path|, 4)
    + LittleEndian(|e.item.payload|, 8) + e.path
  }

  function Encoded(es: seq<Entry>): Octets {
    if es == [] then [] else EncodedHeader(es[0]) + es[0].item.payload + Encoded(es[1..])
  }

  /** The complete archive of a listing, with no limit applied. */
  function FullArchive(es: seq<Entry>): Octets {
    Preamble(|es|) + Encoded(es)
  }

  // ---------- the limits ----------

  function Payloads(es: seq<Entry>): nat {
    if es == [] then 0 else |es[0].item.payload| + Payloads(es[1..])
  }

  function PayloadLimit(kind: Kind): nat {
    match kind
    case RegularKind => MAX_REGULAR
    case SymlinkKind => MAX_TARGET
    case _ => 0
  }

  predicate Archivable(e: Entry) {
    && e.item.kind != SpecialKind
    && e.depth <= MAX_DEPTH
    && |e.path| <= MAX_PATH
    && |e.item.payload| <= PayloadLimit(e.item.kind)
  }

  predicate AllArchivable(es: seq<Entry>) {
    forall i :: 0 <= i < |es| ==> Archivable(es[i])
  }

  predicate WithinLimits(es: seq<Entry>) {
    AllArchivable(es) && |es| <= MAX_ENTRIES && Payloads(es) <= MAX_TOTAL
  }

  predicate NoSpecials(es: seq<Entry>) {
    forall i :: 0 <= i < |es| ==> es[i].item.kind != SpecialKind
  }

  // ---------- the bounded buffer ----------

  datatype Status = Complete | Overflowed | Failed

  datatype Buffer = Buffer(bytes: Octets, ceiling: nat, entries: nat, total: nat, overflow: bool) {
    predicate Valid() {
      && |bytes| <= ceiling && entries <= MAX_ENTRIES && total <= MAX_TOTAL
      && (overflow ==> |bytes| == ceiling)
    }

    function Append(more: Octets): (r: Buffer)
      requires Valid()
      ensures r.Valid()
    {
      if overflow then this
      else
        var amount := Min(|more|, ceiling - |bytes|);
        this.(bytes := bytes + more[..amount], overflow := amount != |more|)
    }

    function ForceOverflow(): (r: Buffer)
      requires Valid()
      ensures r.Valid() && r.overflow
    {
      this.(bytes := bytes + seq(ceiling - |bytes|, _ => 0), overflow := true)
    }

    predicate Room(es: seq<Entry>) {
      && !overflow && AllArchivable(es) && entries + |es| <= MAX_ENTRIES && total + Payloads(es) <= MAX_TOTAL
      && |bytes| + |Encoded(es)| <= ceiling
    }
  }

  /** Appending in pieces and stopping at the first that does not fit is
      appending the whole. */
  lemma AppendPieces(b: Buffer, x: Octets, y: Octets)
    requires b.Valid() && !b.overflow
    ensures b.Append(x + y) == b.Append(x).Append(y)
  {
    var c := b.Append(x);
    if c.overflow {
      assert (x + y)[..b.ceiling - |b.bytes|] == x[..b.ceiling - |b.bytes|];
    } else {
      var amount := Min(|y|, c.ceiling - |c.bytes|);
      assert x[..|x|] == x;
      assert (x + y)[..|x| + amount] == x + y[..amount];
      assert b.bytes + (x + y[..amount]) == (b.bytes + x) + y[..amount];
    }
  }

  datatype Written = Written(buffer: Buffer, status: Status)

  function RecordHeader(b: Buffer, e: Entry): (r: Written)
    requires b.Valid()
    ensures r.buffer.Valid()
  {
    if |e.path| > MAX_PATH || b.entries >= MAX_ENTRIES then Written(b.ForceOverflow(), Overflowed)
    else
      var c := b.Append(EncodedHeader(e));
      if c.overflow then Written(c, Overflowed) else Written(c.(entries := c.entries + 1), Complete)
  }

  function RecordPayload(w: Written, payload: Octets): (r: Written)
    requires w.buffer.Valid()
    ensures r.buffer.Valid()
  {
    if w.status != Complete then w
    else
      var c := w.buffer.Append(payload);
      Written(c, if c.overflow then Overflowed else Complete)
  }

  function Record(b: Buffer, e: Entry): (r: Written)
    requires b.Valid()
    ensures r.buffer.Valid()
  {
    var n := |e.item.payload|;
    if e.depth > MAX_DEPTH then Written(b.ForceOverflow(), Overflowed)
    else if e.item.kind == SpecialKind then Written(b, Failed)
    else if n > PayloadLimit(e.item.kind) || b.total > MAX_TOTAL - n then Written(b.ForceOverflow(), Overflowed)
    else RecordPayload(RecordHeader(b.(total := b.total + n), e), e.item.payload)
  }

  function Walk(b: Buffer, es: seq<Entry>): (r: Written)
    requires b.Valid()
    ensures r.buffer.Valid()
    decreases |es|
  {
    if es == [] then Written(b, Complete)
    else
      var w := Record(b, es[0]);
      if w.status != Complete then w else Walk(w.buffer, es[1..])
  }

  lemma {:induction false} WalkConcat(b: Buffer, xs: seq<Entry>, ys: seq<Entry>)
    requires b.Valid()
    ensures var w := Walk(b, xs);
            Walk(b, xs + ys) == if w.status != Complete then w else Walk(w.buffer, ys)
    decreases |xs|
  {
    if xs == [] {
      assert xs + ys == ys;
    } else {
      assert (xs + ys)[1..] == xs[1..] + ys;
      var w := Record(b, xs[0]);
      if w.status == Complete {
        WalkConcat(w.buffer, xs[1..], ys);
      }
    }
  }

  // ---------- what a walk means ----------

  predicate RoomForOne(b: Buffer, e: Entry) {
    && !b.overflow && Archivable(e) && b.entries < MAX_ENTRIES && b.total + |e.item.payload| <= MAX_TOTAL
    && |b.bytes| + |EncodedHeader(e) + e.item.payload| <= b.ceiling
  }

  function AfterOne(b: Buffer, e: Entry): Buffer {
    Buffer(b.bytes + (EncodedHeader(e) + e.item.payload), b.ceiling, b.entries + 1, b.total + |e.item.payload|, false)
  }

  lemma RecordMeaning(b: Buffer, e: Entry)
    requires b.Valid() && !b.overflow
    ensures var w := Record(b, e);
      && (w.status == Complete <==> RoomForOne(b, e))
      && (w.status == Complete ==> w.buffer == AfterOne(b, e))
      && (w.status == Overflowed ==> |w.buffer.bytes| == b.ceiling && w.buffer.overflow)
      && (w.status == Failed <==> e.item.kind == SpecialKind && e.depth <= MAX_DEPTH)
      && w.buffer.ceiling == b.ceiling
  {
    var h := EncodedHeader(e);
    assert h[..|h|] == h && e.item.payload[..|e.item.payload|] == e.item.payload;
    assert b.bytes + h + e.item.payload == b.bytes + (h + e.item.payload);
  }

  lemma ArchivableStep(es: seq<Entry>)
    requires es != []
    ensures AllArchivable(es) <==> Archivable(es[0]) && AllArchivable(es[1..])
  {
    if AllArchivable(es) {
      forall i | 0 <= i < |es[1..]| ensures Archivable(es[1..][i]) {
        assert Archivable(es[i + 1]);
      }
    }
    if Archivable(es[0]) && AllArchivable(es[1..]) {
      forall i | 0 <= i < |es| ensures Archivable(es[i]) {
        assert i > 0 ==> Archivable(es[1..][i - 1]);
      }
    }
  }

  lemma RoomStep(b: Buffer, es: seq<Entry>)
    requires es != []
    ensures b.Room(es) <==> RoomForOne(b, es[0]) && AfterOne(b, es[0]).Room(es[1..])
    ensures AfterOne(b, es[0]).bytes + Encoded(es[1..]) == b.bytes + Encoded(es)
  {
    ArchivableStep(es);
    var head := EncodedHeader(es[0]) + es[0].item.payload;
    assert Encoded(es) == head + Encoded(es[1..]);
    assert b.bytes + head + Encoded(es[1..]) == b.bytes + (head + Encoded(es[1..]));
  }

  /** Entry k is refused after everything before it was recorded. */
  predicate FailsAt(b: Buffer, es: seq<Entry>, k: nat)
    requires k < |es|
  {
    b.Room(es[..k]) && es[k].item.kind == SpecialKind && es[k].depth <= MAX_DEPTH
  }

  predicate FailsSomewhere(b: Buffer, es: seq<Entry>) {
    exists k :: 0 <= k < |es| && FailsAt(b, es, k)
  }

  lemma FailsStep(b: Buffer, es: seq<Entry>)
    requires es != [] && !b.overflow && b.Valid()
    ensures FailsSomewhere(b, es) <==>
              if es[0].item.kind == SpecialKind then es[0].depth <= MAX_DEPTH
              else RoomForOne(b, es[0]) && FailsSomewhere(AfterOne(b, es[0]), es[1..])
  {
    var c := AfterOne(b, es[0]);
    assert es[..0] == [];
    assert FailsAt(b, es, 0) <==> es[0].item.kind == SpecialKind && es[0].depth <= MAX_DEPTH;
    forall k | 0 <= k < |es| - 1 ensures FailsAt(b, es, k + 1) <==> RoomForOne(b, es[0]) && FailsAt(c, es[1..], k) {
      var p := es[..k + 1];
      assert p[0] == es[0] && p[1..] == es[1..][..k];
      RoomStep(b, p);
    }
    if k :| 0 <= k < |es| && FailsAt(b, es, k) {
      if k > 0 {
        assert FailsAt(b, es, (k - 1) + 1);
        assert FailsAt(c, es[1..], k - 1);
      }
    }
    if RoomForOne(b, es[0]) && FailsSomewhere(c, es[1..]) {
      var k :| 0 <= k < |es[1..]| && FailsAt(c, es[1..], k);
      assert FailsAt(b, es, k + 1);
    }
  }

  lemma {:induction false} WalkMeaning(b: Buffer, es: seq<Entry>)
    requires b.Valid() && !b.overflow
    ensures var w := Walk(b, es);
      && w.buffer.ceiling == b.ceiling
      && (w.status == Complete <==> b.Room(es))
      && (w.status == Complete ==>
            w.buffer == Buffer(b.bytes + Encoded(es), b.ceiling, b.entries + |es|, b.total + Payloads(es), false))
      && (w.status == Overflowed ==> |w.buffer.bytes| == b.ceiling && w.buffer.overflow)
      && (w.status == Failed <==> FailsSomewhere(b, es))
    decreases |es|
  {
    if es == [] {
      assert b.bytes + Encoded(es) == b.bytes;
    } else {
      RecordMeaning(b, es[0]);
      RoomStep(b, es);
      FailsStep(b, es);
      if RoomForOne(b, es[0]) {
        WalkMeaning(AfterOne(b, es[0]), es[1..]);
      }
    }
  }

  // ---------- the whole snapshot ----------

  function Blank(cap: nat): Buffer {
    Buffer([], cap + 1, 0, 0, false)
  }

  /** The entry count goes into the preamble last. */
  function Patched(b: Buffer): Buffer
    requires |b.bytes| >= 16
  {
    b.(bytes := b.bytes[..12] + LittleEndian(b.entries, 4) + b.bytes[16..])
  }

  /** None when no buffer is allocated. */
  function Snapshot(cap: nat, root: Node): (r: Option<Written>) {
    if cap > MAX_CAP then None
    else
      var b := Blank(cap).Append(Preamble(0));
      if b.overflow then Some(Written(b, Overflowed))
      else if !root.Directory? then Some(Written(b, Failed))
      else
        WalkMeaning(b, Listing(root, [], 0));
        var w := Walk(b, Listing(root, [], 0));
        Some(if w.status == Complete then Written(Patched(w.buffer), Complete) else w)
  }

  /** What the result frame is told about the snapshot. */
  function AsRun(s: Option<Written>, written: bool): SupervisorMain.SnapshotRun {
    match s
    case None => SupervisorMain.SnapshotRun(-1, 0, false, false, written)
    case Some(w) =>
      var result := match w.status { case Complete => 0 case Overflowed => 1 case Failed => -1 };
      SupervisorMain.SnapshotRun(result, |w.buffer.bytes|, w.buffer.overflow, true, written)
  }

  lemma PreambleFits(cap: nat)
    ensures var b := Blank(cap).Append(Preamble(0));
      && (b.overflow <==> cap < 15)
      && (b.overflow ==> |b.bytes| == cap + 1)
      && (!b.overflow ==> b.bytes == Preamble(0))
  {
    var p := Preamble(0);
    assert p[..|p|] == p && [] + p == p;
  }

  lemma PatchedArchive(es: seq<Entry>)
    ensures var before := Preamble(0) + Encoded(es);
            before[..12] + LittleEndian(|es|, 4) + before[16..] == FullArchive(es)
  {
    var magic := [67, 66, 68, 83, 87, 83, 78, 49] + LittleEndian(1, 4);
    assert Preamble(0) == magic + LittleEndian(0, 4) && Preamble(|es|) == magic + LittleEndian(|es|, 4);
    var before := Preamble(0) + Encoded(es);
    assert before[..12] == magic;
    assert before[16..] == Encoded(es);
  }

  /** Whether the result frame says WRITTEN, and whether it says OVERFLOW, when
      the octets reach the snapshot descriptor. */
  predicate SaysWritten(cap: nat, root: Node) {
    var run := AsRun(Snapshot(cap, root), true);
    SupervisorMain.SnapshotDelivered(run) && !SupervisorMain.SnapshotOverflows(run, cap)
  }

  predicate SaysOverflow(cap: nat, root: Node) {
    var run := AsRun(Snapshot(cap, root), true);
    SupervisorMain.SnapshotDelivered(run) && SupervisorMain.SnapshotOverflows(run, cap)
  }

  /** WRITTEN with exactly the full archive iff it is within every limit and at
      most cap octets long; on a tree of directories, regular files and symbolic
      links, OVERFLOW with exactly cap + 1 octets in every other case. */
  lemma SnapshotIsExact(cap: nat, root: Node)
    requires cap <= MAX_CAP && root.Directory?
    ensures var es := Listing(root, [], 0);
            var s := Snapshot(cap, root);
      && s.Some?
      && (SaysWritten(cap, root) <==> WithinLimits(es) && |FullArchive(es)| <= cap)
      && (SaysWritten(cap, root) ==> s.value.buffer.bytes == FullArchive(es))
      && (SaysOverflow(cap, root) ==> |s.value.buffer.bytes| == cap + 1)
      && (NoSpecials(es) ==> SaysWritten(cap, root) || SaysOverflow(cap, root))
  {
    var es := Listing(root, [], 0);
    var b := Blank(cap).Append(Preamble(0));
    PreambleFits(cap);
    if !b.overflow {
      WalkMeaning(b, es);
      RoomAfterPreamble(cap, es);
      assert NoSpecials(es) ==> !FailsSomewhere(b, es);
      if Walk(b, es).status == Complete {
        PatchedArchive(es);
      }
    }
  }

  lemma RoomAfterPreamble(cap: nat, es: seq<Entry>)
    ensures Buffer(Preamble(0), cap + 1, 0, 0, false).Room(es) <==> WithinLimits(es) && |FullArchive(es)| <= cap + 1
  {
  }

  /** Entry k is a device, socket or pipe and everything before it could be recorded. */
  predicate RefusedAt(cap: nat, es: seq<Entry>, k: nat)
    requires k < |es|
  {
    && es[k].item.kind == SpecialKind && es[k].depth <= MAX_DEPTH
    && WithinLimits(es[..k]) && |FullArchive(es[..k])| <= cap + 1
  }

  lemma RefusalsAgree(cap: nat, es: seq<Entry>)
    ensures FailsSomewhere(Buffer(Preamble(0), cap + 1, 0, 0, false), es) <==>
              exists k :: 0 <= k < |es| && RefusedAt(cap, es, k)
  {
    var b := Buffer(Preamble(0), cap + 1, 0, 0, false);
    forall k | 0 <= k < |es| ensures FailsAt(b, es, k) <==> RefusedAt(cap, es, k) {
      RoomAfterPreamble(cap, es[..k]);
    }
  }

  lemma StartFails(cap: nat, es: seq<Entry>)
    requires cap >= 15
    ensures Walk(Buffer(Preamble(0), cap + 1, 0, 0, false), es).status == Failed <==>
              exists k :: 0 <= k < |es| && RefusedAt(cap, es, k)
  {
    WalkMeaning(Buffer(Preamble(0), cap + 1, 0, 0, false), es);
    RefusalsAgree(cap, es);
  }

  lemma NoRoomNoRefusal(cap: nat, es: seq<Entry>)
    requires cap < 15
    ensures forall k :: 0 <= k < |es| ==> !RefusedAt(cap, es, k)
  {
    forall k | 0 <= k < |es| ensures !RefusedAt(cap, es, k) {
      assert |FullArchive(es[..k])| >= 16;
    }
  }

  lemma SaysNothingIffFailed(cap: nat, root: Node)
    requires cap <= MAX_CAP && root.Directory?
    ensures Snapshot(cap, root).Some?
    ensures !SaysWritten(cap, root) && !SaysOverflow(cap, root) <==> Snapshot(cap, root).value.status == Failed
  {
    PreambleFits(cap);
    var b := Blank(cap).Append(Preamble(0));
    if !b.overflow {
      WalkMeaning(b, Listing(root, [], 0));
    }
  }

  lemma FailedIffWalkFails(cap: nat, root: Node)
    requires cap <= MAX_CAP && root.Directory?
    ensures Snapshot(cap, root).Some?
    ensures Snapshot(cap, root).value.status == Failed <==>
              cap >= 15 && Walk(Buffer(Preamble(0), cap + 1, 0, 0, false), Listing(root, [], 0)).status == Failed
  {
    PreambleFits(cap);
  }

  lemma FailedIffRefused(cap: nat, root: Node, es: seq<Entry>)
    requires cap <= MAX_CAP && root.Directory? && es == Listing(root, [], 0)
    ensures Snapshot(cap, root).Some?
    ensures Snapshot(cap, root).value.status == Failed <==> exists k :: 0 <= k < |es| && RefusedAt(cap, es, k)
  {
    FailedIffWalkFails(cap, root);
    if cap < 15 {
      NoRoomNoRefusal(cap, es);
    } else {
      StartFails(cap, es);
    }
  }

  /** The snapshot fails, and the frame is a supervisor error, exactly when the
      walk meets such an entry. */
  lemma SnapshotFails(cap: nat, root: Node)
    requires cap <= MAX_CAP && root.Directory?
    ensures var es := Listing(root, [], 0);
            !SaysWritten(cap, root) && !SaysOverflow(cap, root) <==> exists k :: 0 <= k < |es| && RefusedAt(cap, es, k)
  {
    SaysNothingIffFailed(cap, root);
    FailedIffRefused(cap, root, Listing(root, [], 0));
  }
}
