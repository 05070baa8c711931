/** The bounded in-memory audit log (internal/audit/memory.go). */
module AuditLog {
  import opened Paging
  import opened Text
  import opened Wrappers

  const DEFAULT_MAX_EVENTS := 10000
  const DEFAULT_LIMIT := 100
  const MAX_LIMIT := 500

  /** createdAt 0 is the zero time. */
  datatype Event = Event(id: string, traceId: string, actorSubject: string, actorName: string, app: string, orgId: string,
                         projectId: string, resourceType: string, resourceId: string, action: string, result: string,
                         reason: string, ip: string, userAgent: string, requestPath: string, requestMethod: string,
                         createdAt: int, metadata: map<string, string>)

  datatype Request = Request(traceId: string, actorSubject: string, app: string, orgId: string, projectId: string,
                             resourceType: string, resourceId: string, action: string, result: string,
                             limit: int, offset: int)

  datatype Response = Response(items: seq<Event>, total: nat, limit: nat, offset: nat)

  function NormalizeEvent(e: Event, freshId: string, now: int): Event {
    Event(if TrimSpace(e.id) == "" then freshId else TrimSpace(e.id),
          TrimSpace(e.traceId), TrimSpace(e.actorSubject), TrimSpace(e.actorName), TrimSpace(e.app), TrimSpace(e.orgId),
          TrimSpace(e.projectId), TrimSpace(e.resourceType), TrimSpace(e.resourceId), TrimSpace(e.action),
          TrimSpace(e.result), TrimSpace(e.reason), TrimSpace(e.ip), TrimSpace(e.userAgent), TrimSpace(e.requestPath),
          TrimSpace(e.requestMethod), if e.createdAt == 0 then now else e.createdAt, e.metadata)
  }

  /** One filter field: blank lets everything through. */
  predicate Match(filter: string, value: string) {
    TrimSpace(filter) == "" || TrimSpace(filter) == value
  }

  predicate Matches(e: Event, req: Request) {
    && Match(req.traceId, e.traceId) && Match(req.actorSubject, e.actorSubject) && Match(req.app, e.app)
    && Match(req.orgId, e.orgId) && Match(req.projectId, e.projectId) && Match(req.resourceType, e.resourceType)
    && Match(req.resourceId, e.resourceId) && Match(req.action, e.action) && Match(req.result, e.result)
  }

  function Limit(req: Request): (limit: nat)
    ensures req.limit <= 0 ==> limit == 100
    ensures req.limit > 0 ==> limit <= 500 && limit <= req.limit && (limit < req.limit ==> limit == 500)
  {
    if req.limit <= 0 then DEFAULT_LIMIT else if req.limit > MAX_LIMIT then MAX_LIMIT else req.limit
  }

  function Offset(req: Request): nat {
    if req.offset < 0 then 0 else req.offset
  }

  /** The last `max` entries of an unbounded log. */
  function Window<T>(log: seq<T>, max: nat): seq<T> {
    if |log| <= max then log else log[|log| - max..]
  }

  /** The matching events, newest first. */
  function NewestMatching(events: seq<Event>, req: Request): seq<Event> {
    if events == [] then []
    else
      var n := |events| - 1;
      (if Matches(events[n], req) then [events[n]] else []) + NewestMatching(events[..n], req)
  }

  lemma {:induction false} NewestOfAppend(a: seq<Event>, b: seq<Event>, req: Request)
    ensures NewestMatching(a + b, req) == NewestMatching(b, req) + NewestMatching(a, req)
  {
    hide Matches;
    if b == [] {
      assert a + b == a;
    } else {
      var n := |b| - 1;
      assert (a + b)[..|a| + n] == a + b[..n];
      NewestOfAppend(a, b[..n], req);
    }
  }

  lemma NewestOfOne(e: Event, later: seq<Event>, req: Request)
    ensures NewestMatching([e] + later, req)
         == if Matches(e, req) then NewestMatching(later, req) + [e] else NewestMatching(later, req)
  {
    hide Matches;
    NewestOfAppend([e], later, req);
    assert NewestMatching([e], req) == (if Matches(e, req) then [e] else []) + [];
  }

  lemma NoEvents(req: Request, offset: nat, limit: nat)
    ensures NewestMatching([], req) == [] && Slice<Event>([], offset, limit) == []
  {
  }

  class MemoryService {
    const maxEvents: nat
    const buf: array<Event>
    var len: nat
    var closed: bool
    ghost var log: seq<Event>   // every event ever written, oldest first

    ghost predicate Valid()
      reads this, buf
    {
      && 0 < maxEvents == buf.Length && len <= buf.Length
      && buf[..len] == Window(log, maxEvents)
    }

    constructor (max: int)
      ensures Valid() && fresh(buf) && log == [] && !closed
      ensures maxEvents == if max <= 0 then 10000 else max
    {
      maxEvents := if max <= 0 then DEFAULT_MAX_EVENTS else max;
      buf := new Event[if max <= 0 then DEFAULT_MAX_EVENTS else max];
      len, closed, log := 0, false, [];
    }

    /** Appends an event; a full buffer first drops its oldest one by shifting in place. */
    method Write(event: Event, freshId: string, now: int) returns (r: Option<Event>)
      requires Valid()
      modifies this, buf
      ensures Valid() && closed == old(closed)
      ensures r == if old(closed) then None else Some(NormalizeEvent(event, freshId, now))
      ensures log == if r.Some? then old(log) + [r.value] else old(log)
    {
      hide NormalizeEvent;
      var e := NormalizeEvent(event, freshId, now);
      if closed {
        return None;
      }
      if len >= maxEvents {
        ShiftLeft();
        len := len - 1;
      }
      buf[len] := e;
      len := len + 1;
      log := log + [e];
      return Some(e);
    }

    /** copy(events, events[1:]). */
    method ShiftLeft()
      requires 0 < len <= buf.Length
      modifies buf
      ensures buf[..len - 1] == old(buf[1..len])
    {
      ghost var was := buf[..];
      for i := 0 to len - 1
        invariant forall k :: 0 <= k < i ==> buf[k] == was[k + 1]
        invariant forall k :: i <= k < len ==> buf[k] == was[k]
      {
        buf[i] := buf[i + 1];
      }
    }

    method List(req: Request) returns (r: Response)
      requires Valid()
      ensures var matching := NewestMatching(Window(log, maxEvents), req);
        r == Response(Slice(matching, Offset(req), Limit(req)), |matching|, Limit(req), Offset(req))
    {
      hide Matches, NewestMatching, Window, Slice;
      NoEvents(req, Offset(req), Limit(req));
      var limit, offset := Limit(req), Offset(req);
      var items: seq<Event> := [];
      var matched := 0;
      ghost var events := buf[..len];
      assert events[len..] == [];
      for i := len downto 0
        invariant matched == |NewestMatching(events[i..], req)|
        invariant items == Slice(NewestMatching(events[i..], req), offset, limit)
      {
        var event := buf[i];
        assert events[i..] == [event] + events[i + 1..];
        NewestOfOne(event, events[i + 1..], req);
        if !Matches(event, req) {
          continue;
        }
        SliceSnoc(NewestMatching(events[i + 1..], req), event, offset, limit);
        if matched >= offset && |items| < limit {
          items := items + [event];
        }
        matched := matched + 1;
      }
      assert events[0..] == events;
      return Response(items, matched, limit, offset);
    }

    method Close()
      requires Valid()
      modifies this
      ensures Valid() && closed && log == old(log)
    {
      closed := true;
    }
  }

  /** Nothing that matches is left out: every matching event is listed, newest first. */
  lemma {:induction false} NewestMatchingExact(events: seq<Event>, req: Request, e: Event)
    ensures e in NewestMatching(events, req) <==> e in events && Matches(e, req)
  {
    hide Matches;
    if events != [] {
      var n := |events| - 1;
      assert events == events[..n] + [events[n]];
      NewestMatchingExact(events[..n], req, e);
    }
  }

  /** The matching events in the order they were written. */
  function Matching(events: seq<Event>, req: Request): seq<Event> {
    if events == [] then []
    else (if Matches(events[0], req) then [events[0]] else []) + Matching(events[1..], req)
  }

  function Reversed<T>(s: seq<T>): (r: seq<T>)
    ensures |r| == |s| && forall i :: 0 <= i < |s| ==> r[i] == s[|s| - 1 - i]
  {
    seq(|s|, i requires 0 <= i < |s| => s[|s| - 1 - i])
  }

  lemma ReversedCons<T>(s: seq<T>, first: seq<T>)
    requires |first| <= 1
    ensures Reversed(first + s) == Reversed(s) + first
  {
  }

  /** What List slices is the filtered log back to front. */
  lemma {:induction false} NewestIsReversed(events: seq<Event>, req: Request)
    ensures NewestMatching(events, req) == Reversed(Matching(events, req))
  {
    hide Matches, Reversed;
    if events != [] {
      NewestIsReversed(events[1..], req);
      assert events == [events[0]] + events[1..];
      var rest := Matching(events[1..], req);
      ReversedCons(rest, if Matches(events[0], req) then [events[0]] else []);
      hide NewestMatching;
      NewestOfOne(events[0], events[1..], req);
    }
  }

  // ----- Writing and asking.

  predicate Agrees(asked: string, held: string) {
    TrimSpace(asked) == "" || TrimSpace(asked) == TrimSpace(held)
  }

  /** Asking with the fields of one event finds another that was written exactly if they agree in
      each of the nine, where blanks around a field mean nothing and a blank one asks nothing. */
  lemma WrittenIsFoundIff(e: Event, freshId: string, now: int, f: Event, limit: int, offset: int)
    ensures Matches(NormalizeEvent(e, freshId, now),
                    Request(f.traceId, f.actorSubject, f.app, f.orgId, f.projectId, f.resourceType, f.resourceId, f.action,
                            f.result, limit, offset)) <==>
      && Agrees(f.traceId, e.traceId) && Agrees(f.actorSubject, e.actorSubject) && Agrees(f.app, e.app)
      && Agrees(f.orgId, e.orgId) && Agrees(f.projectId, e.projectId) && Agrees(f.resourceType, e.resourceType)
      && Agrees(f.resourceId, e.resourceId) && Agrees(f.action, e.action) && Agrees(f.result, e.result)
  {
    hide TrimSpace;
  }

  /** Writing again what was written changes nothing. */
  lemma WrittenStays(e: Event, freshId: string, now: int, freshId': string, now': int)
    requires TrimSpace(freshId) == freshId != "" && now != 0
    ensures var once := NormalizeEvent(e, freshId, now); NormalizeEvent(once, freshId', now') == once
  {
    forall s: string ensures TrimSpace(TrimSpace(s)) == TrimSpace(s) { TrimTwice(s, GO_SPACE); }
    hide Trim;
  }

  /** The buffer holds the newest events: the last `max`, or all. */
  lemma WindowIsNewest<T>(log: seq<T>, max: nat)
    ensures |Window(log, max)| == (if |log| <= max then |log| else max) && log[|log| - |Window(log, max)|..] == Window(log, max)
  {
  }

  /** What was written last is the first on the first page of whoever asks for it. */
  lemma LastIsFirst(log: seq<Event>, e: Event, req: Request, max: nat)
    requires max >= 1 && Matches(e, req) && req.offset <= 0
    ensures var page := Slice(NewestMatching(Window(log + [e], max), req), Offset(req), Limit(req)); page != [] && page[0] == e
  {
    hide Matches;
    var window := Window(log + [e], max);
    WindowIsNewest(log + [e], max);
    assert window[|window| - 1] == e;
  }
}
