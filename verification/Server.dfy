/** The server and the connection to it, as far as a client can observe them: the
    log only grows, other devices append at any time, frames get lost. What happens
    at each exchange is an input, so that every run is a choice of inputs. */
module Server {
  import opened Wrappers
  import opened LtHash
  import opened AppStateLog
  import opened Processor

  /** What the server did with a frame that carries a patch. */
  datatype Fate = Dropped | Accepted | Refused

  /** `interrupted`: the stream ended before the client saw an answer. */
  datatype Frame = Frame(fate: Fate, interrupted: bool)

  datatype Reply =
    | Done
    | Conflict(list: PatchList)
    | Rejected
    | Interrupted
    | Lost

  /** One frame with a patch: what others append before and after it, whether it
      arrives, is refused, interrupted, and answered, and with how many of the patches
      after its base version a conflict is answered. */
  datatype Move = Move(
    before: seq<Patch>, arrives: bool, refuses: bool, interrupted: bool, visible: bool,
    conflict: Option<nat>, hasMore: bool, after: seq<Patch>)

  /** One request for patches: what others append before it, whether it is answered,
      with what, and whether the contacts in it can be stored. */
  datatype Query = Query(before: seq<Patch>, answered: bool, list: PatchList, contactsStored: bool)

  /** Other devices append patches with the next numbers. */
  function Grown(log: seq<Patch>, more: seq<Patch>): (grown: seq<Patch>)
    ensures log <= grown && (Numbered(log) ==> Numbered(grown))
  {
    if Numbered(log + more) then log + more else log
  }

  datatype Sent = Sent(log: seq<Patch>, frame: Frame, reply: Reply)

  function StretchAfter(log: seq<Patch>, base: nat, count: nat, hasMore: bool): Option<PatchList> {
    if base + count <= |log| then Some(PatchList(hasMore, log[base..base + count], None)) else None
  }

  /** The server takes a patch only if its base is the current version. */
  function Fated(log: seq<Patch>, base: nat, m: Move): Fate {
    if !m.arrives then Dropped else if |log| == base && !m.refuses then Accepted else Refused
  }

  function ReplyTo(log: seq<Patch>, base: nat, fate: Fate, m: Move): Reply {
    if m.interrupted then Interrupted
    else if fate == Dropped || !m.visible then Lost
    else if fate == Accepted then Done
    else
      var list := if m.conflict.Some? then StretchAfter(log, base, m.conflict.value, m.hasMore) else None;
      if list.Some? then Conflict(list.value) else Rejected
  }

  function Send(log: seq<Patch>, base: nat, patch: Patch, m: Move): Sent {
    var met := Grown(log, m.before);
    var fate := Fated(met, base, m);
    var taken := if fate == Accepted then met + [patch] else met;
    Sent(Grown(taken, m.after), Frame(fate, m.interrupted), ReplyTo(taken, base, fate, m))
  }

  lemma SendFacts(log: seq<Patch>, base: nat, patch: Patch, m: Move)
    requires Numbered(log) && patch.version == base + 1
    ensures var s := Send(log, base, patch, m);
      && Numbered(s.log) && log <= s.log
      && (s.frame.fate == Accepted ==> |log| <= base < |s.log| && s.log[base] == patch)
      && s.frame.interrupted == s.reply.Interrupted?
      && (s.reply.Done? ==> s.frame.fate == Accepted)
      && (s.reply.Rejected? || s.reply.Conflict? ==> s.frame.fate == Refused)
      && (s.reply.Conflict? ==> FaithfulList(s.log, base, s.reply.list) && s.reply.list.snapshot.None?)
  {
    var met := Grown(log, m.before);
    var taken := if Fated(met, base, m) == Accepted then met + [patch] else met;
    var s := Send(log, base, patch, m);
    if s.reply.Conflict? {
      assert FaithfulList(taken, base, s.reply.list);
      FaithfulInLonger(taken, s.log, base, s.reply.list);
    }
  }

  function CountFirst(frames: seq<Frame>, n: nat): nat
    requires n <= |frames|
  {
    if n == 0 then 0 else CountFirst(frames, n - 1) + (if frames[n - 1].fate == Accepted then 1 else 0)
  }

  function CountAccepted(frames: seq<Frame>): nat {
    CountFirst(frames, |frames|)
  }

  /** An answer is a stretch of the log, complete if it says so. */
  predicate IsAnswer(log: seq<Patch>, from: nat, list: PatchList) {
    FaithfulList(log, from, list) && (!list.hasMore ==> Base(list, from) + |list.patches| == |log|)
  }

  class Server {
    var log: seq<Patch>
    /** The list of the last answer. */
    var served: PatchList
    /** Non-final answers so far that did not advance the client. */
    var stalls: nat
    /** Every frame with a patch that this client has sent. */
    var frames: seq<Frame>

    /** A request for the patches after a version, with or without snapshot. */
    method FetchPatches(from: nat, q: Query) returns (r: Result<PatchList, SyncError>)
      requires Numbered(log)
      modifies this
      ensures Numbered(log) && log == Grown(old(log), q.before) && frames == old(frames)
      ensures r == if q.answered && IsAnswer(log, from, q.list) then Success(q.list) else Failure(TransportFailure)
      ensures r.Success? ==> served == q.list
      ensures stalls == old(stalls) +
        if r.Success? && q.list.hasMore && Base(q.list, from) + |q.list.patches| <= from then 1 else 0
    {
      log := Grown(log, q.before);
      if !q.answered || !IsAnswer(log, from, q.list) {
        return Failure(TransportFailure);
      }
      served := q.list;
      if q.list.hasMore && Base(q.list, from) + |q.list.patches| <= from {
        stalls := stalls + 1;
      }
      return Success(q.list);
    }

    /** One frame with a patch against a base version. */
    method Transmit(base: nat, patch: Patch, m: Move) returns (reply: Reply)
      modifies this`log, this`frames
      ensures var s := Send(old(log), base, patch, m);
        log == s.log && frames == old(frames) + [s.frame] && reply == s.reply
    {
      log := Grown(log, m.before);
      var fate := Dropped;
      if m.arrives {
        if |log| == base && !m.refuses {
          log := log + [patch];
          fate := Accepted;
        } else {
          fate := Refused;
        }
      }
      frames := frames + [Frame(fate, m.interrupted)];
      reply := ReplyTo(log, base, fate, m);
      log := Grown(log, m.after);
    }
  }
}
