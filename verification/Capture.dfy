/** Draining a child's output pipe up to one octet past a cap, with the digest
    taken on the way. */
module Capture {
  import opened Words
  import Sha256

  type Octets = seq<Byte>

  const BLOCK_BYTES: nat := 4096

  /** What the kernel does at the next read.  `Ready` hands over at most `size`
      pending octets, or end of file once nothing is left to come. */
  datatype ReadEvent = Ready(size: nat) | Interrupted | WouldBlock | Failed

  datatype ReadResult = Data(octets: Octets) | EndOfFile | Retry | Nothing | Error

  /** How many octets a read of at most `limit` delivers with `left` to come. */
  function Delivered(size: nat, limit: nat, left: nat): (n: nat)
    requires limit > 0 && left > 0
    ensures 0 < n <= limit && n <= left
  {
    Min(Min(if size == 0 then 1 else size, limit), left)
  }

  /** The read end of a pipe: everything the writers will ever send, how far it
      has been read, and the demonic schedule of coming reads.  An exhausted
      schedule would block. */
  class Pipe {
    const whole: Octets
    var position: nat
    var schedule: seq<ReadEvent>

    constructor (whole: Octets, schedule: seq<ReadEvent>)
      ensures this.whole == whole && position == 0 && this.schedule == schedule
    {
      this.whole, position, this.schedule := whole, 0, schedule;
    }

    method Read(limit: nat) returns (r: ReadResult)
      requires limit > 0 && position <= |whole|
      modifies this
      ensures old(position) <= position <= |whole| && schedule == Rest(old(schedule))
      ensures r.Data? ==> r.octets == whole[old(position)..position] && r.octets != []
      ensures r == if old(schedule) == [] then Nothing else
                     match old(schedule)[0]
                     case Interrupted => Retry
                     case WouldBlock => Nothing
                     case Failed => Error
                     case Ready(size) => if old(position) == |whole| then EndOfFile else Data(whole[old(position)..position])
      ensures position == old(position) +
                          if r.Data? then Delivered(old(schedule)[0].size, limit, |whole| - old(position)) else 0
    {
      if schedule == [] {
        return Nothing;
      }
      var event := schedule[0];
      schedule := schedule[1..];
      match event {
        case Interrupted => r := Retry;
        case WouldBlock => r := Nothing;
        case Failed => r := Error;
        case Ready(size) =>
          if position == |whole| {
            r := EndOfFile;
          } else {
            var n := Delivered(size, limit, |whole| - position);
            r := Data(whole[position..position + n]);
            position := position + n;
          }
      }
    }
  }

  function Rest(schedule: seq<ReadEvent>): seq<ReadEvent> {
    if schedule == [] then [] else schedule[1..]
  }

  /** Where one call of a drain leaves the capture. */
  datatype Progress = Progress(status: int, observed: nat, schedule: seq<ReadEvent>, open: bool, overflow: bool)

  /** One call of a drain on an open capture of a stream of `total` octets. */
  function Drained(cap: nat, total: nat, observed: nat, schedule: seq<ReadEvent>): Progress
    requires observed <= cap && observed <= total
    decreases |schedule|
  {
    if schedule == [] then Progress(0, observed, [], true, false) else
      match schedule[0]
      case Interrupted => Drained(cap, total, observed, schedule[1..])
      case WouldBlock => Progress(0, observed, schedule[1..], true, false)
      case Failed => Progress(-1, observed, schedule[1..], true, false)
      case Ready(size) =>
        if observed == total then Progress(0, observed, schedule[1..], false, false) else
          var seen := observed + Delivered(size, Min(cap + 1 - observed, BLOCK_BYTES), total - observed);
          if seen == cap + 1 then Progress(1, seen, schedule[1..], false, true)
          else Drained(cap, total, seen, schedule[1..])
  }

  /** At most one octet past the cap is ever taken; a closed capture has seen
      exactly min(total, cap + 1) octets and overflowed iff the cap was exceeded;
      and the octets still unread when a call blocks are all still to come. */
  lemma {:induction false} DrainedMeaning(cap: nat, total: nat, observed: nat, schedule: seq<ReadEvent>)
    requires observed <= cap && observed <= total
    ensures var p := Drained(cap, total, observed, schedule);
            && observed <= p.observed <= total
            && (if p.open then p.observed <= cap && !p.overflow
                else p.observed == Min(total, cap + 1) && (p.overflow <==> total > cap))
            && -1 <= p.status <= 1 && (p.status == 1 <==> p.overflow) && (p.status == -1 ==> p.open)
            && (schedule != [] ==> |p.schedule| < |schedule|)
    decreases |schedule|
  {
    if schedule != [] {
      match schedule[0]
      case Interrupted => DrainedMeaning(cap, total, observed, schedule[1..]);
      case Ready(size) =>
        if observed < total {
          var seen := observed + Delivered(size, Min(cap + 1 - observed, BLOCK_BYTES), total - observed);
          if seen <= cap {
            DrainedMeaning(cap, total, seen, schedule[1..]);
          }
        }
      case _ =>
    }
  }

  /** Reads that hand something over or find the end of file. */
  function Readies(schedule: seq<ReadEvent>): nat {
    if schedule == [] then 0 else (if schedule[0].Ready? then 1 else 0) + Readies(schedule[1..])
  }

  /** A capture still open has got at least one octet out of every such read. */
  lemma {:induction false} ReadiesAreSpent(cap: nat, total: nat, observed: nat, schedule: seq<ReadEvent>)
    requires observed <= cap && observed <= total
    ensures var p := Drained(cap, total, observed, schedule);
            p.open ==> Readies(p.schedule) + p.observed >= Readies(schedule) + observed
    decreases |schedule|
  {
    if schedule != [] {
      match schedule[0]
      case Interrupted => ReadiesAreSpent(cap, total, observed, schedule[1..]);
      case Ready(size) =>
        if observed < total {
          var seen := observed + Delivered(size, Min(cap + 1 - observed, BLOCK_BYTES), total - observed);
          if seen <= cap {
            ReadiesAreSpent(cap, total, seen, schedule[1..]);
          }
        }
      case _ =>
    }
  }

  class CaptureState {
    const pipe: Pipe
    const digest: Sha256.Context
    const cap: nat
    var observed: nat
    var open: bool
    var overflow: bool

    ghost predicate Valid()
      reads this, pipe, digest, digest.block
    {
      && Counted()
      && (if open then observed <= cap && !overflow
          else observed == Min(|pipe.whole|, cap + 1) && (overflow <==> |pipe.whole| > cap))
    }

    /** What has been counted is what was read, and it is what was digested. */
    ghost predicate Counted()
      reads this, pipe, digest, digest.block
    {
      && digest.Valid()
      && observed == pipe.position <= |pipe.whole|
      && digest.Absorbed() == pipe.whole[..observed]
    }

    ghost function Remaining(): Progress
      requires open ==> observed <= cap && observed <= |pipe.whole|
      reads this, pipe
    {
      if open then Drained(cap, |pipe.whole|, observed, pipe.schedule)
      else Progress(0, observed, pipe.schedule, open, overflow)
    }

    constructor (ops: Sha256.WordOps, cap: nat, whole: Octets, schedule: seq<ReadEvent>)
      ensures Valid() && fresh(pipe) && fresh(digest) && fresh(digest.block)
      ensures digest.ops == ops && digest.f == Sha256.CompressionOf(ops)
      ensures open && this.cap == cap && pipe.whole == whole && pipe.schedule == schedule
    {
      this.cap := cap;
      pipe := new Pipe(whole, schedule);
      digest := new Sha256.Context(ops);
      observed, open, overflow := 0, true, false;
    }

    /** One read, its octets digested and counted; the caller closes. */
    method ReadBlock(limit: nat) returns (r: ReadResult)
      requires Valid() && open && limit == Min(cap + 1 - observed, BLOCK_BYTES)
      modifies this`observed, pipe, digest, digest.block
      ensures Counted() && observed <= cap + 1
      ensures r.Data? || observed == old(observed)
      ensures r.EndOfFile? ==> observed == |pipe.whole|
      ensures r.Retry? || r.Data? ==> |pipe.schedule| < |old(pipe.schedule)|
      ensures old(Remaining()) ==
              match r
              case Nothing => Progress(0, observed, pipe.schedule, true, false)
              case Error => Progress(-1, observed, pipe.schedule, true, false)
              case EndOfFile => Progress(0, observed, pipe.schedule, false, false)
              case Retry => Drained(cap, |pipe.whole|, observed, pipe.schedule)
              case Data(_) => if observed == cap + 1 then Progress(1, observed, pipe.schedule, false, true)
                              else Drained(cap, |pipe.whole|, observed, pipe.schedule)
    {
      r := pipe.Read(limit);
      if r.Data? {
        digest.Update(r.octets);
        assert pipe.whole[..pipe.position] == pipe.whole[..observed] + r.octets;
        observed := observed + |r.octets|;
      }
    }

    /** drain_capture of the candidate supervisor, which closes on `== ceiling`. */
    method Drain() returns (status: int)
      requires Valid()
      modifies this, pipe, digest, digest.block
      ensures Valid()
      ensures Progress(status, observed, pipe.schedule, open, overflow) == old(Remaining())
    {
      ghost var goal := Remaining();
      while open
        invariant Valid() && Remaining() == goal
        decreases open, |pipe.schedule|
      {
        var ceiling := cap + 1;
        assert observed < ceiling;  // so the early exit at the loop head cannot fire
        var remaining := ceiling - observed;
        if remaining > BLOCK_BYTES {
          remaining := BLOCK_BYTES;
        }
        var r := ReadBlock(remaining);
        match r {
          case Data(_) =>
            if observed == ceiling {
              overflow, open := true, false;
              return 1;
            }
          case EndOfFile => open := false;
          case Retry =>
          case Nothing => return 0;
          case Error => return -1;
        }
      }
      return 0;
    }

    /** drain_capture of the fixed-scenario supervisor, which closes on `> cap`. */
    method DrainFixedScenario() returns (status: int)
      requires Valid()
      modifies this, pipe, digest, digest.block
      ensures Valid()
      ensures Progress(status, observed, pipe.schedule, open, overflow) == old(Remaining())
    {
      ghost var goal := Remaining();
      while open
        invariant Valid() && Remaining() == goal
        decreases open, |pipe.schedule|
      {
        var ceiling := cap + 1;
        assert observed < ceiling;
        var remaining := ceiling - observed;
        if remaining > BLOCK_BYTES {
          remaining := BLOCK_BYTES;
        }
        var r := ReadBlock(remaining);
        match r {
          case Data(_) =>
            if observed > cap {
              overflow, open := true, false;
              return 1;
            }
          case EndOfFile =>
            open := false;
            return 0;
          case Retry =>
          case Nothing => return 0;
          case Error => return -1;
        }
      }
      return 0;
    }

    /** sha256_final, once the draining is over. */
    method Finish() returns (octets: Octets)
      requires Valid()
      modifies digest, digest.block
      ensures octets == Sha256.HashWith(digest.ops, digest.f, pipe.whole[..observed])
    {
      octets := digest.Final();
    }
  }

  /** Draining round after round until the pipe closes or stays silent: closed once
      there have been reads enough for what is taken and the end. */
  method CaptureStream(ops: Sha256.WordOps, cap: nat, whole: Octets, schedule: seq<ReadEvent>)
    returns (closed: bool, observed: nat, overflow: bool, digest: Octets)
    ensures if closed then observed == Min(|whole|, cap + 1) && (overflow <==> |whole| > cap)
            else observed <= Min(|whole|, cap) && !overflow
    ensures Readies(schedule) > Min(|whole|, cap) ==> closed
    ensures digest == Sha256.HashWith(ops, Sha256.CompressionOf(ops), whole[..observed])
  {
    var capture := new CaptureState(ops, cap, whole, schedule);
    while capture.open && capture.pipe.schedule != []
      invariant capture.Valid()
      invariant capture.open ==> Readies(capture.pipe.schedule) + capture.observed >= Readies(schedule)
      invariant fresh(capture) && fresh(capture.pipe) && fresh(capture.digest) && fresh(capture.digest.block)
      decreases |capture.pipe.schedule|
    {
      DrainedMeaning(cap, |whole|, capture.observed, capture.pipe.schedule);
      ReadiesAreSpent(cap, |whole|, capture.observed, capture.pipe.schedule);
      var status := capture.Drain();
    }
    closed, observed, overflow := !capture.open, capture.observed, capture.overflow;
    digest := capture.Finish();
  }
}
