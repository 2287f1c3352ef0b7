/** Reassembly of multi-fragment messages as a function on the table of
    partly received messages, and what interleaved sessions can expect of it. */
module FragmentModel {
  import opened Wrappers
  import opened Bytes
  import opened MessageCache

  /** A received packet of a multi-fragment command, with what the environment
      decides about it: whether its body parses, and whether the answer can be
      put into the send buffer. */
  datatype Fragment = Fragment(sid: Key, packetNum: int, final: bool, parsed: Option<Body>, answered: bool)

  /** What the command's component provides. Grouping adds a part to the whole;
      when it fails the whole is as before. */
  datatype Component = Component(empty: Body, group: (Body, Body) -> Option<Body>, valid: Body -> bool)

  /** Handed(b): the business function got b. */
  datatype Outcome = Failed | Waiting | Invalid | Handed(body: Body)

  type Sessions = map<Key, Body>

  /** single_operator_general_flow for a command with fragments. */
  function Step(m: Sessions, c: Component, f: Fragment): (Sessions, Outcome) {
    if f.parsed.None? then (m, Failed)
    else if f.sid !in m && (f.packetNum != 1 || f.sid == []) then (m, Failed)
    else
      var whole := if f.sid in m then m[f.sid] else c.empty;
      var grouped := c.group(f.parsed.value, whole);
      if grouped.None? then (m[f.sid := whole], Failed)
      else
        var m' := m[f.sid := grouped.value];
        if !f.final then (m', Waiting)
        else
          (if f.answered then m' - {f.sid} else m',
           if c.valid(grouped.value) then Handed(grouped.value) else Invalid)
  }

  /** A packet arrives, or a sweep drops some sessions. */
  datatype Event = Arrive(f: Fragment) | Sweep(dropped: set<Key>)

  /** One command per session: the component is a function of the session. */
  type Components = Key -> Component

  function Apply(m: Sessions, cs: Components, ev: Event): Sessions {
    match ev
    case Arrive(f) => Step(m, cs(f.sid), f).0
    case Sweep(dropped) => m - dropped
  }

  function Run(m: Sessions, cs: Components, evs: seq<Event>): Sessions
    decreases |evs|
  {
    if evs == [] then m else Run(Apply(m, cs, evs[0]), cs, evs[1..])
  }

  /** The outcomes of one session's packets, in order. */
  function OutcomesOf(m: Sessions, cs: Components, evs: seq<Event>, sid: Key): seq<Outcome>
    decreases |evs|
  {
    if evs == [] then []
    else
      var rest := OutcomesOf(Apply(m, cs, evs[0]), cs, evs[1..], sid);
      if evs[0].Arrive? && evs[0].f.sid == sid then [Step(m, cs(sid), evs[0].f).1] + rest else rest
  }

  function Get(m: Sessions, sid: Key): Option<Body> {
    if sid in m then Some(m[sid]) else None
  }

  // ----- the reference: a log of accepted fragments, per session -----

  /** The whole message made of the accepted parts, in order of arrival. */
  function Fold(c: Component, parts: seq<Body>): Option<Body>
    decreases |parts|
  {
    if parts == [] then Some(c.empty)
    else
      match Fold(c, parts[..|parts| - 1])
      case None => None
      case Some(whole) => c.group(parts[|parts| - 1], whole)
  }

  /** One session on its own: the parts accepted since its entry was created,
      or None without an entry; and the outcome of a packet. */
  function LogStep(log: Option<seq<Body>>, c: Component, f: Fragment): (Option<seq<Body>>, Outcome) {
    if f.parsed.None? then (log, Failed)
    else if log.None? && (f.packetNum != 1 || f.sid == []) then (None, Failed)
    else
      var parts := if log.Some? then log.value else [];
      var more := parts + [f.parsed.value];
      match Fold(c, more)
      case None => (Some(parts), Failed)
      case Some(whole) =>
        if !f.final then (Some(more), Waiting)
        else (if f.answered then None else Some(more), if c.valid(whole) then Handed(whole) else Invalid)
  }

  /** The log of a session after events of all sessions; others do not matter. */
  function Log(log: Option<seq<Body>>, c: Component, evs: seq<Event>, sid: Key): Option<seq<Body>>
    decreases |evs|
  {
    if evs == [] then log else Log(LogApply(log, c, evs[0], sid), c, evs[1..], sid)
  }

  function LogApply(log: Option<seq<Body>>, c: Component, ev: Event, sid: Key): Option<seq<Body>> {
    match ev
    case Arrive(f) => if f.sid == sid then LogStep(log, c, f).0 else log
    case Sweep(dropped) => if sid in dropped then None else log
  }

  function LogOutcomes(log: Option<seq<Body>>, c: Component, evs: seq<Event>, sid: Key): seq<Outcome>
    decreases |evs|
  {
    if evs == [] then []
    else
      var rest := LogOutcomes(LogApply(log, c, evs[0], sid), c, evs[1..], sid);
      if evs[0].Arrive? && evs[0].f.sid == sid then [LogStep(log, c, evs[0].f).1] + rest else rest
  }

  /** The table's body for a session is the fold of its log. */
  ghost predicate Agrees(body: Option<Body>, log: Option<seq<Body>>, c: Component) {
    match log
    case None => body.None?
    case Some(parts) => body.Some? && Fold(c, parts) == body
  }

  lemma StepAgrees(m: Sessions, c: Component, f: Fragment, log: Option<seq<Body>>)
    requires Agrees(Get(m, f.sid), log, c)
    ensures Agrees(Get(Step(m, c, f).0, f.sid), LogStep(log, c, f).0, c)
    ensures Step(m, c, f).1 == LogStep(log, c, f).1
  {
    hide Fold;
    if f.parsed.Some? {
      var parts := if log.Some? then log.value else [];
      FoldMore(c, parts, f.parsed.value);
    }
  }

  lemma FoldMore(c: Component, parts: seq<Body>, part: Body)
    ensures Fold(c, parts + [part]) == (match Fold(c, parts) case None => None case Some(whole) => c.group(part, whole))
    ensures Fold(c, []) == Some(c.empty)
  {
    var more := parts + [part];
    assert more[..|more| - 1] == parts && more[|more| - 1] == part;
  }

  lemma StepLeavesOthers(m: Sessions, c: Component, f: Fragment, sid: Key)
    requires sid != f.sid
    ensures Get(Step(m, c, f).0, sid) == Get(m, sid)
  {
  }

  /** Reassembly without interference: whatever other sessions do in between, a
      session's packets have exactly the outcomes of the session on its own, and
      its partial message is the fold of its own accepted fragments. */
  lemma {:induction false} NonInterference(m: Sessions, cs: Components, evs: seq<Event>, sid: Key,
                                           log: Option<seq<Body>>)
    requires Agrees(Get(m, sid), log, cs(sid))
    ensures Agrees(Get(Run(m, cs, evs), sid), Log(log, cs(sid), evs, sid), cs(sid))
    ensures OutcomesOf(m, cs, evs, sid) == LogOutcomes(log, cs(sid), evs, sid)
    decreases |evs|
  {
    hide Step, LogStep, Agrees;
    if evs != [] {
      var ev := evs[0];
      var m' := Apply(m, cs, ev);
      var log' := LogApply(log, cs(sid), ev, sid);
      ApplyAgrees(m, cs, ev, sid, log);
      NonInterference(m', cs, evs[1..], sid, log');
    }
  }

  lemma ApplyAgrees(m: Sessions, cs: Components, ev: Event, sid: Key, log: Option<seq<Body>>)
    requires Agrees(Get(m, sid), log, cs(sid))
    ensures Agrees(Get(Apply(m, cs, ev), sid), LogApply(log, cs(sid), ev, sid), cs(sid))
    ensures ev.Arrive? && ev.f.sid == sid ==> Step(m, cs(sid), ev.f).1 == LogStep(log, cs(sid), ev.f).1
  {
    match ev
    case Arrive(f) =>
      if f.sid == sid {
        StepAgrees(m, cs(sid), f, log);
      } else {
        StepLeavesOthers(m, cs(f.sid), f, sid);
      }
    case Sweep(dropped) =>
  }

  lemma HandedByLog(log: Option<seq<Body>>, c: Component, f: Fragment)
    ensures var out := LogStep(log, c, f).1;
            out.Handed? ==>
              && f.final && f.parsed.Some? && (log.Some? || f.packetNum == 1)
              && Fold(c, (if log.Some? then log.value else []) + [f.parsed.value]) == Some(out.body)
  {
    hide Fold;
  }

  /** What the business function gets is the fold of the session's accepted
      fragments since its entry was created, the last one included. */
  lemma HandedIsFold(m: Sessions, cs: Components, evs: seq<Event>, f: Fragment, log: Option<seq<Body>>)
    requires Agrees(Get(m, f.sid), log, cs(f.sid))
    ensures var out := Step(Run(m, cs, evs), cs(f.sid), f).1;
            var now := Log(log, cs(f.sid), evs, f.sid);
            out.Handed? ==>
              && f.final && f.parsed.Some? && (now.Some? || f.packetNum == 1)
              && Fold(cs(f.sid), (if now.Some? then now.value else []) + [f.parsed.value]) == Some(out.body)
  {
    hide Run, Log, Agrees, Fold, Step, LogStep;
    NonInterference(m, cs, evs, f.sid, log);
    HandedByLog(Log(log, cs(f.sid), evs, f.sid), cs(f.sid), f);
    StepAgrees(Run(m, cs, evs), cs(f.sid), f, Log(log, cs(f.sid), evs, f.sid));
  }

  // ----- the same, said of the interleaved run itself -----

  /** The bodies of the session's own packets that did not fail, in order of arrival. */
  function Accepted(m: Sessions, cs: Components, evs: seq<Event>, sid: Key): seq<Body>
    decreases |evs|
  {
    if evs == [] then []
    else AcceptedNow(m, cs, evs[0], sid) + Accepted(Apply(m, cs, evs[0]), cs, evs[1..], sid)
  }

  function AcceptedNow(m: Sessions, cs: Components, ev: Event, sid: Key): seq<Body> {
    if ev.Arrive? && ev.f.sid == sid && Step(m, cs(sid), ev.f).1 != Failed then [ev.f.parsed.value] else []
  }

  /** The session has an entry after each of these events. */
  ghost predicate PresentAfterEach(m: Sessions, cs: Components, evs: seq<Event>, sid: Key) {
    forall j | 0 < j <= |evs| :: sid in Run(m, cs, evs[..j])
  }

  lemma PresentTail(m: Sessions, cs: Components, evs: seq<Event>, sid: Key)
    requires evs != [] && PresentAfterEach(m, cs, evs, sid)
    ensures sid in Apply(m, cs, evs[0])
    ensures PresentAfterEach(Apply(m, cs, evs[0]), cs, evs[1..], sid)
  {
    hide Apply;
    var m' := Apply(m, cs, evs[0]);
    assert sid in Run(m, cs, evs[..1]);
    assert evs[..1][1..] == [];
    assert Run(m', cs, []) == m';
    forall j | 0 < j <= |evs| - 1
      ensures sid in Run(m', cs, evs[1..][..j])
    {
      assert evs[..j + 1][1..] == evs[1..][..j];
      assert sid in Run(m, cs, evs[..j + 1]);
    }
  }

  lemma FoldGrows(m: Sessions, cs: Components, ev: Event, sid: Key, parts: seq<Body>)
    requires if sid in m then Fold(cs(sid), parts) == Some(m[sid]) else parts == []
    requires sid in Apply(m, cs, ev)
    ensures Fold(cs(sid), parts + AcceptedNow(m, cs, ev, sid)) == Some(Apply(m, cs, ev)[sid])
  {
    match ev
    case Arrive(f) =>
      if f.sid == sid {
        FoldMore(cs(sid), parts, if f.parsed.Some? then f.parsed.value else cs(sid).empty);
        assert parts + [] == parts;
      } else {
        StepLeavesOthers(m, cs(f.sid), f, sid);
        assert Get(m, sid) == Get(Apply(m, cs, ev), sid);
        assert parts + [] == parts;
      }
    case Sweep(dropped) =>
      assert parts + [] == parts;
  }

  /** While a session's entry lives, its partial message is the fold of exactly
      its own packets accepted since the entry was created. */
  lemma {:induction false} WholeIsFoldSinceCreation(m: Sessions, cs: Components, evs: seq<Event>, sid: Key,
                                                    parts: seq<Body>)
    requires if sid in m then Fold(cs(sid), parts) == Some(m[sid]) else parts == []
    requires PresentAfterEach(m, cs, evs, sid) && (sid in m || evs != [])
    ensures sid in Run(m, cs, evs)
    ensures Fold(cs(sid), parts + Accepted(m, cs, evs, sid)) == Some(Run(m, cs, evs)[sid])
    decreases |evs|
  {
    hide Apply, PresentAfterEach, AcceptedNow, Fold;
    if evs == [] {
      assert parts + [] == parts;
    } else {
      var m' := Apply(m, cs, evs[0]);
      var now, later := AcceptedNow(m, cs, evs[0], sid), Accepted(m', cs, evs[1..], sid);
      PresentTail(m, cs, evs, sid);
      FoldGrows(m, cs, evs[0], sid, parts);
      WholeIsFoldSinceCreation(m', cs, evs[1..], sid, parts + now);
      assert parts + (now + later) == (parts + now) + later;
    }
  }

  /** A packet of a session whose entry was created by these events, or would be by
      this packet, is accepted exactly when its body parses and can be grouped with all
      accepted before. The business function gets the fold of them all exactly on an
      accepted final packet that makes the message valid. The entry is gone exactly
      after an accepted final packet that is answered, or if there never was one. */
  lemma HandedSinceCreation(m: Sessions, cs: Components, evs: seq<Event>, f: Fragment)
    requires f.sid !in m && PresentAfterEach(m, cs, evs, f.sid)
    ensures var c, r := cs(f.sid), Step(Run(m, cs, evs), cs(f.sid), f);
            var known := evs != [] || (f.parsed.Some? && f.packetNum == 1 && f.sid != []);
            var whole := if f.parsed.Some? && known then Fold(c, Accepted(m, cs, evs, f.sid) + [f.parsed.value])
                         else None;
            && (r.1 == Failed <==> whole.None?)
            && (r.1 == Waiting <==> whole.Some? && !f.final)
            && (r.1 == Invalid <==> whole.Some? && f.final && !c.valid(whole.value))
            && (r.1.Handed? <==> whole.Some? && f.final && c.valid(whole.value))
            && (r.1.Handed? ==> r.1.body == whole.value)
            && (f.sid in r.0 <==> known && !(whole.Some? && f.final && f.answered))
  {
    hide Fold;
    var sid, parts := f.sid, Accepted(m, cs, evs, f.sid);
    if f.parsed.Some? {
      FoldMore(cs(sid), parts, f.parsed.value);
    }
    if evs != [] {
      hide Apply, PresentAfterEach, Accepted;
      WholeIsFoldSinceCreation(m, cs, evs, sid, []);
      assert [] + parts == parts;
    }
  }

  /** Entries are created by fragment number 1 only. */
  lemma OnlyFirstCreates(m: Sessions, cs: Components, ev: Event, sid: Key)
    requires sid !in m && sid in Apply(m, cs, ev)
    ensures ev.Arrive? && ev.f.sid == sid && ev.f.packetNum == 1 && ev.f.parsed.Some?
  {
    if ev.Arrive? && ev.f.sid != sid {
      StepLeavesOthers(m, cs(ev.f.sid), ev.f, sid);
    }
  }
}
