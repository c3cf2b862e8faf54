/** The receive loop of a Device Builder command in addon_tools.py, against any sequence of arrivals. */
module DeviceBuilder {
  import opened JsonValues
  import opened Wrappers

  type Object = map<string, Json>

  datatype Data = NotJson | NotObject | Object(fields: Object)

  /** What a turn of the loop meets: a frame, or one of the ways waiting ends. */
  datatype Arrival = Text(data: Data) | OtherFrame | ServerClosed | SocketError | Silence | Deadline

  datatype Reason = ByTimeout | BySilence | ByServer | ByError | ByEventResult | ByResult | ByMessageLimit

  /** What the command reports: the server's error, or everything it collected. Raised when the loop ends in
      an exception its callers do not handle: an event name that is a list or a dict cannot be looked up in
      a set. */
  datatype Report =
    | Refused(message: Object)
    | Raised
    | Collected(events: seq<Object>, result: Option<Json>, terminal: Option<Object>, reason: Reason)

  const RESULT_EVENTS := {Str("result")}

  predicate IsOwn(a: Arrival, id: string) {
    a.Text? && a.data.Object? && "message_id" in a.data.fields && a.data.fields["message_id"] == Str(id)
  }

  predicate IsEnd(a: Arrival) { !a.Text? && !a.OtherFrame? }

  /** Frames of other commands, frames that are no JSON object, and binary frames. */
  predicate IsForeign(a: Arrival, id: string) { !IsOwn(a, id) && !IsEnd(a) }

  predicate IsError(m: Object) { "error_code" in m }
  predicate IsEvent(m: Object) { "error_code" !in m && "event" in m }
  predicate IsTerminal(m: Object) { IsEvent(m) && m["event"] in RESULT_EVENTS }

  /** An event whose name cannot be hashed. */
  predicate IsUnhashable(m: Object) { IsEvent(m) && (m["event"].Arr? || m["event"].Obj?) }

  predicate IsResult(m: Object) { "error_code" !in m && "event" !in m && "result" in m }

  /** The messages after which the loop reads no further. */
  predicate Stops(m: Object, stream: bool) {
    IsError(m) || IsUnhashable(m) || IsTerminal(m) || (IsResult(m) && !stream)
  }

  // ---- the reference: what was said to this command, and how listening ended -------------------------------

  /** The messages carrying the command's own id, up to the end of the connection. */
  function Own(arrivals: seq<Arrival>, id: string): seq<Object> {
    if arrivals == [] || IsEnd(arrivals[0]) then []
    else (if IsOwn(arrivals[0], id) then [arrivals[0].data.fields] else []) + Own(arrivals[1..], id)
  }

  /** The first thing that ends the connection; time runs out if nothing else happens. */
  function End(arrivals: seq<Arrival>): Arrival {
    if arrivals == [] then Deadline else if IsEnd(arrivals[0]) then arrivals[0] else End(arrivals[1..])
  }

  /** How many messages are read: up to the limit or the first one that stops. */
  function ReadUpTo(own: seq<Object>, limit: int, stream: bool, n: nat): (r: nat)
    requires n <= |own|
    ensures n <= r <= |own|
    ensures forall k :: n <= k < r - 1 ==> !Stops(own[k], stream)
    ensures r == |own| || r >= limit || (r > n && Stops(own[r - 1], stream))
    ensures r > n ==> r <= limit
    decreases |own| - n
  {
    if n >= limit || n == |own| then n
    else if Stops(own[n], stream) then n + 1
    else ReadUpTo(own, limit, stream, n + 1)
  }

  function Events(ms: seq<Object>): seq<Object> {
    if ms == [] then []
    else Events(ms[..|ms| - 1]) + if IsEvent(ms[|ms| - 1]) then [ms[|ms| - 1]] else []
  }

  function LastResult(ms: seq<Object>): Option<Json> {
    if ms == [] then None
    else if IsResult(ms[|ms| - 1]) then Some(ms[|ms| - 1]["result"])
    else LastResult(ms[..|ms| - 1])
  }

  function EndReason(end: Arrival, sofar: Reason): Reason {
    match end
    case ServerClosed => ByServer
    case SocketError => ByError
    case Silence => BySilence
    case _ => sofar
  }

  /** The report on what was read, given its last message and whether the limit was reached. */
  function Told(last: Option<Object>, events: seq<Object>, result: Option<Json>, full: bool, end: Arrival,
          stream: bool): Report {
    if last.Some? && IsError(last.value) then Refused(last.value)
    else if last.Some? && IsUnhashable(last.value) then Raised
    else if last.Some? && IsTerminal(last.value) then Collected(events, result, last, ByEventResult)
    else
      var sofar := if result.Some? then ByResult else ByTimeout;
      Collected(events, result, None,
                if last.Some? && Stops(last.value, stream) then ByResult
                else if full then (if result.Some? then ByResult else ByMessageLimit)
                else EndReason(end, sofar))
  }

  /** The report on the command's messages and the way listening ended. */
  function ReportOn(own: seq<Object>, end: Arrival, limit: int, stream: bool): Report {
    var read := own[..ReadUpTo(own, limit, stream, 0)];
    Told(if read == [] then None else Some(read[|read| - 1]), Events(read), LastResult(read), |read| >= limit, end,
        stream)
  }

  lemma Reported(own: seq<Object>, end: Arrival, limit: int, stream: bool, count: int)
    requires 0 <= count <= |own| && ReadUpTo(own, limit, stream, 0) == count
    ensures ReportOn(own, end, limit, stream) ==
            Told(if count == 0 then None else Some(own[count - 1]), Events(own[..count]), LastResult(own[..count]),
                 count >= limit, end, stream)
  {
  }

  // ---- the loop ------------------------------------------------------------------------------------------------

  lemma {:induction false} EventsAppend(ms: seq<Object>, m: Object)
    ensures Events(ms + [m]) == Events(ms) + if IsEvent(m) then [m] else []
    ensures LastResult(ms + [m]) == if IsResult(m) then Some(m["result"]) else LastResult(ms)
  {
    assert (ms + [m])[..|ms|] == ms;
  }

  lemma NothingYet(own: seq<Object>)
    ensures Events(own[..0]) == [] && LastResult(own[..0]) == None
  {
  }

  lemma Halts(own: seq<Object>, count: int, limit: int, stream: bool)
    requires 0 <= count <= |own|
    ensures count >= limit || count == |own| ==> ReadUpTo(own, limit, stream, count) == count
  {
  }

  lemma NoMore(arrivals: seq<Arrival>, id: string)
    ensures arrivals == [] ==> Own(arrivals, id) == [] && End(arrivals) == Deadline
  {
  }

  lemma NextArrival(arrivals: seq<Arrival>, i: int, id: string)
    requires 0 <= i < |arrivals|
    ensures Own(arrivals[i..], id) ==
            if IsEnd(arrivals[i]) then []
            else (if IsOwn(arrivals[i], id) then [arrivals[i].data.fields] else []) + Own(arrivals[i + 1..], id)
    ensures End(arrivals[i..]) == if IsEnd(arrivals[i]) then arrivals[i] else End(arrivals[i + 1..])
  {
    assert arrivals[i..][1..] == arrivals[i + 1..];
  }

  lemma NextMessage(own: seq<Object>, count: int, limit: int, stream: bool)
    requires 0 <= count < |own|
    ensures ReadUpTo(own, limit, stream, count) ==
            if count >= limit then count
            else if Stops(own[count], stream) then count + 1
            else ReadUpTo(own, limit, stream, count + 1)
    ensures Events(own[..count + 1]) == Events(own[..count]) + if IsEvent(own[count]) then [own[count]] else []
    ensures LastResult(own[..count + 1]) == if IsResult(own[count]) then Some(own[count]["result"])
              else LastResult(own[..count])
  {
    assert own[..count + 1] == own[..count] + [own[count]];
    EventsAppend(own[..count], own[count]);
  }

  /** Reading goes on after the last message read, if any. */
  lemma ReportedGoing(own: seq<Object>, end: Arrival, limit: int, stream: bool, count: int)
    requires 0 <= count <= |own| && ReadUpTo(own, limit, stream, 0) == count
    requires count > 0 ==> !Stops(own[count - 1], stream)
    ensures var result := LastResult(own[..count]);
            var sofar := if result.Some? then ByResult else ByTimeout;
            ReportOn(own, end, limit, stream) ==
            Collected(Events(own[..count]), result, None,
                      if count >= limit then (if result.Some? then ByResult else ByMessageLimit)
                          else EndReason(end, sofar))
  {
    hide ReadUpTo, ReportOn;
    Reported(own, end, limit, stream, count);
  }

  function StopReport(m: Object, events: seq<Object>, result: Option<Json>): Report {
    if IsError(m) then Refused(m)
    else if IsUnhashable(m) then Raised
    else if IsTerminal(m) then Collected(events, result, Some(m), ByEventResult)
    else Collected(events, result, None, ByResult)
  }

  /** The last message read stops the reading. */
  lemma ReportedStop(own: seq<Object>, end: Arrival, limit: int, stream: bool, count: int)
    requires 0 < count <= |own| && ReadUpTo(own, limit, stream, 0) == count && Stops(own[count - 1], stream)
    ensures var m, events, result := own[count - 1], Events(own[..count]), LastResult(own[..count]);
            ReportOn(own, end, limit, stream) == StopReport(m, events, result)
  {
    hide ReadUpTo, ReportOn;
    Reported(own, end, limit, stream, count);
  }

  lemma Classify(m: Object, stream: bool)
    ensures IsError(m) <==> "error_code" in m
    ensures IsEvent(m) <==> "error_code" !in m && "event" in m
    ensures IsUnhashable(m) <==> "error_code" !in m && "event" in m && (m["event"].Arr? || m["event"].Obj?)
    ensures IsTerminal(m) <==> "error_code" !in m && "event" in m && m["event"] in RESULT_EVENTS
    ensures IsResult(m) <==> "error_code" !in m && "event" !in m && "result" in m
    ensures Stops(m, stream) <==> IsError(m) || IsUnhashable(m) || IsTerminal(m) || (IsResult(m) && !stream)
  {
  }

  /** The loop so far: what is left to hear, and what the messages heard come to. */
  ghost predicate Heard(arrivals: seq<Arrival>, id: string, limit: int, stream: bool, i: int, count: int,
                        events: seq<Object>, result: Option<Json>)
  {
    var own := Own(arrivals, id);
    && 0 <= i <= |arrivals| && 0 <= count <= |own|
    && own[count..] == Own(arrivals[i..], id) && End(arrivals[i..]) == End(arrivals)
    && ReadUpTo(own, limit, stream, 0) == ReadUpTo(own, limit, stream, count)
    && (count > 0 ==> !Stops(own[count - 1], stream) && count <= limit)
    && events == Events(own[..count]) && result == LastResult(own[..count])
  }

  lemma HeardNothing(arrivals: seq<Arrival>, id: string, limit: int, stream: bool)
    ensures Heard(arrivals, id, limit, stream, 0, 0, [], None)
  {
    assert arrivals[0..] == arrivals && Own(arrivals, id)[0..] == Own(arrivals, id);
    NothingYet(Own(arrivals, id));
  }

  /** The loop's guard fails, or time runs out. */
  lemma HeardOut(arrivals: seq<Arrival>, id: string, limit: int, stream: bool, i: int, count: int,
                 events: seq<Object>, result: Option<Json>)
    requires Heard(arrivals, id, limit, stream, i, count, events, result)
    ensures count >= limit || i == |arrivals| ==>
              ReportOn(Own(arrivals, id), End(arrivals), limit, stream) ==
              Collected(events, result, None,
                        if result.Some? then ByResult else if count >= limit then ByMessageLimit else ByTimeout)
  {
    hide ReadUpTo, Events, LastResult, Own, End, ReportOn, Told, Stops;
    if count >= limit || i == |arrivals| {
      if i == |arrivals| { NoMore(arrivals[i..], id); }
      Halts(Own(arrivals, id), count, limit, stream);
      ReportedGoing(Own(arrivals, id), End(arrivals), limit, stream, count);
    }
  }

  /** The end of the connection. */
  lemma HeardEnd(arrivals: seq<Arrival>, id: string, limit: int, stream: bool, i: int, count: int,
                 events: seq<Object>, result: Option<Json>)
    requires Heard(arrivals, id, limit, stream, i, count, events, result) && i < |arrivals| && count < limit
    ensures IsEnd(arrivals[i]) ==>
              ReportOn(Own(arrivals, id), End(arrivals), limit, stream) ==
              Collected(events, result, None, EndReason(arrivals[i], if result.Some? then ByResult else ByTimeout))
    ensures IsForeign(arrivals[i], id) ==> Heard(arrivals, id, limit, stream, i + 1, count, events, result)
  {
    hide ReadUpTo, Events, LastResult, Own, End, ReportOn, Told, Stops;
    NextArrival(arrivals, i, id);
    Halts(Own(arrivals, id), count, limit, stream);
    if IsEnd(arrivals[i]) {
      ReportedGoing(Own(arrivals, id), End(arrivals), limit, stream, count);
    }
  }

  /** One more message of the command's own. */
  lemma HeardOwn(arrivals: seq<Arrival>, id: string, limit: int, stream: bool, i: int, count: int,
                 events: seq<Object>, result: Option<Json>)
    requires Heard(arrivals, id, limit, stream, i, count, events, result) && i < |arrivals| && count < limit
    requires IsOwn(arrivals[i], id)
    ensures var m := arrivals[i].data.fields;
            var more := if IsEvent(m) then events + [m] else events;
            var latest := if IsResult(m) then Some(m["result"]) else result;
            && (!Stops(m, stream) ==> Heard(arrivals, id, limit, stream, i + 1, count + 1, more, latest))
            && (Stops(m, stream) ==>
                  ReportOn(Own(arrivals, id), End(arrivals), limit, stream) == StopReport(m, more, latest))
  {
    hide ReadUpTo, Events, LastResult, Own, End, ReportOn, Told, Stops, IsError, IsUnhashable, IsTerminal, IsEvent,
      IsResult;
    var own, m := Own(arrivals, id), arrivals[i].data.fields;
    NextArrival(arrivals, i, id);
    assert own[count] == m && own[count + 1..] == Own(arrivals[i + 1..], id);
    NextMessage(own, count, limit, stream);
    Classify(m, stream);
    if Stops(m, stream) { ReportedStop(own, End(arrivals), limit, stream, count + 1); }
  }

  method Receive(arrivals: seq<Arrival>, id: string, limit: int, stream: bool) returns (report: Report)
    ensures report == ReportOn(Own(arrivals, id), End(arrivals), limit, stream)
  {
    hide Heard, Own, End, ReportOn, IsError, IsEvent, IsTerminal, IsResult, IsUnhashable, Stops;
    var events: seq<Object>, result: Option<Json>, terminal: Option<Object>, reason := [], None, None, ByTimeout;
    var count, i := 0, 0;
    ghost var listening := true;
    HeardNothing(arrivals, id, limit, stream);
    while count < limit
      invariant 0 <= i <= |arrivals|
      invariant listening && Heard(arrivals, id, limit, stream, i, count, events, result)
      invariant terminal == None && reason == if result.Some? then ByResult else ByTimeout
      decreases |arrivals| - i
    {
      HeardOut(arrivals, id, limit, stream, i, count, events, result);
      listening := false;
      if i == |arrivals| { break; }
      HeardEnd(arrivals, id, limit, stream, i, count, events, result);
      ghost var at := i;
      var a := arrivals[i];
      i := i + 1;
      match a
      case Deadline => break;
      case Silence => reason := BySilence; break;
      case ServerClosed => reason := ByServer; break;
      case SocketError => reason := ByError; break;
      case OtherFrame => listening := true; continue;
      case Text(data) =>
        listening := true;
        if !data.Object? { continue; }
        var m := data.fields;
        if !("message_id" in m && m["message_id"] == Str(id)) { continue; }
        HeardOwn(arrivals, id, limit, stream, at, count, events, result);
        Classify(m, stream);
        count := count + 1;
        if "error_code" in m { return Refused(m); }
        if "event" in m {
          events := events + [m];
          if m["event"].Arr? || m["event"].Obj? { return Raised; }
          if m["event"] in RESULT_EVENTS {
            terminal, reason, listening := Some(m), ByEventResult, false;
            break;
          }
          continue;
        }
        if "result" in m {
          result, reason := Some(m["result"]), ByResult;
          if !stream {
            listening := false;
            break;
          }
          continue;
        }
    }
    if listening { HeardOut(arrivals, id, limit, stream, i, count, events, result); }
    if count >= limit && reason != ByEventResult && reason != ByResult { reason := ByMessageLimit; }
    report := Collected(events, result, terminal, reason);
  }

  /** The loop ends in an exception exactly when the first of the command's messages that stops the reading
      is no error and has an event that is an array or an object. */
  lemma RaisesExactly(own: seq<Object>, end: Arrival, limit: int, stream: bool)
    ensures ReportOn(own, end, limit, stream) == Raised <==>
            exists k :: 0 <= k < |own| && k < limit && IsUnhashable(own[k]) && forall j :: 0 <= j < k ==>
                !Stops(own[j], stream)
  {
    hide ReportOn, Events, LastResult, IsTerminal, IsResult, ReadUpTo;
    var n := ReadUpTo(own, limit, stream, 0);
    Reported(own, end, limit, stream, n);
    if ReportOn(own, end, limit, stream) == Raised {
      assert IsUnhashable(own[n - 1]) && forall j :: 0 <= j < n - 1 ==> !Stops(own[j], stream);
    }
    if k :| 0 <= k < |own| && k < limit && IsUnhashable(own[k]) && forall j :: 0 <= j < k ==> !Stops(own[j], stream) {
      FirstStop(own, limit, stream, 0, k);
    }
  }

  /** Reading ends at the first message that stops it. */
  lemma {:induction false} FirstStop(own: seq<Object>, limit: int, stream: bool, i: int, k: int)
    requires 0 <= i <= k < |own| && k < limit && Stops(own[k], stream)
    requires forall j :: i <= j < k ==> !Stops(own[j], stream)
    ensures ReadUpTo(own, limit, stream, i) == k + 1
    decreases k - i
  {
    hide Stops;
    if i < k { FirstStop(own, limit, stream, i + 1, k); }
  }

  /** One message with the command's id and a list for its event is enough. */
  lemma OneListRaises(id: string, limit: int, stream: bool)
    requires limit > 0
    ensures var m: Object := map["message_id" := Str(id), "event" := Arr([])];
            ReportOn(Own([Text(Data.Object(m))], id), End([Text(Data.Object(m))]), limit, stream) == Raised
  {
    var m: Object := map["message_id" := Str(id), "event" := Arr([])];
    var arrivals := [Text(Data.Object(m))];
    assert Own(arrivals[1..], id) == [];
    assert Own(arrivals, id) == [m];
    assert IsUnhashable(m);
    RaisesExactly([m], End(arrivals), limit, stream);
    assert [m][0] == m;
  }

  // ---- what other frames do ----------------------------------------------------------------------------------

  /** A foreign frame, wherever it comes, changes nothing. */
  lemma {:induction false} ForeignFramesAreIgnored(before: seq<Arrival>, frame: Arrival, after: seq<Arrival>,
          id: string)
    requires IsForeign(frame, id)
    ensures Own(before + [frame] + after, id) == Own(before + after, id)
    ensures End(before + [frame] + after) == End(before + after)
  {
    var with, without := before + [frame] + after, before + after;
    if before == [] {
      assert with == [frame] + after && without == after;
    } else {
      assert with[1..] == before[1..] + [frame] + after && without[1..] == before[1..] + after;
      ForeignFramesAreIgnored(before[1..], frame, after, id);
    }
  }

  /** The arrivals with every foreign frame left out. */
  function OnlyOwn(arrivals: seq<Arrival>, id: string): seq<Arrival> {
    if arrivals == [] then []
    else (if IsForeign(arrivals[0], id) then [] else [arrivals[0]]) + OnlyOwn(arrivals[1..], id)
  }

  /** Two connections that differ only in foreign frames get the same report. */
  lemma {:induction false} OwnMessagesDecide(arrivals: seq<Arrival>, id: string)
    ensures Own(OnlyOwn(arrivals, id), id) == Own(arrivals, id)
    ensures End(OnlyOwn(arrivals, id)) == End(arrivals)
  {
    if arrivals != [] {
      OwnMessagesDecide(arrivals[1..], id);
      var out := OnlyOwn(arrivals, id);
      if IsForeign(arrivals[0], id) {
        assert out == OnlyOwn(arrivals[1..], id);
      } else {
        assert out[1..] == OnlyOwn(arrivals[1..], id);
      }
    }
  }

  lemma ForeignFramesNeverMatter(a: seq<Arrival>, b: seq<Arrival>, id: string, limit: int, stream: bool)
    requires OnlyOwn(a, id) == OnlyOwn(b, id)
    ensures ReportOn(Own(a, id), End(a), limit, stream) == ReportOn(Own(b, id), End(b), limit, stream)
  {
    OwnMessagesDecide(a, id);
    OwnMessagesDecide(b, id);
  }

  // ---- what a report says -----------------------------------------------------------------------------------------

  /** The reason tells what was seen: a terminal event only as the last event reported, a result only when
      there is one, the limit only when that many messages were read without one. */
  lemma ReasonTellsTruth(own: seq<Object>, end: Arrival, limit: int, stream: bool)
    ensures var r := ReportOn(own, end, limit, stream);
            r.Collected? ==>
              && (r.reason == ByEventResult <==> r.terminal.Some?)
              && (r.terminal.Some? ==>
                  r.events != [] && r.events[|r.events| - 1] == r.terminal.value
                  && IsTerminal(r.terminal.value) && r.terminal.value["event"] == Str("result"))
              && (r.reason == ByResult ==> r.result.Some?)
              && (r.reason == ByMessageLimit ==> r.result.None? && |own| >= limit)
              && (forall k :: 0 <= k < |r.events| - 1 ==> !IsTerminal(r.events[k]))
              && (r.events != [] && IsTerminal(r.events[|r.events| - 1]) ==> r.terminal.Some?)
              && (r.result.Some? && !stream ==> r.reason == ByResult)
  {
    hide ReadUpTo, ReportOn, Events, LastResult;
    var n := ReadUpTo(own, limit, stream, 0);
    Reported(own, end, limit, stream, n);
    if n == 0 {
      NothingYet(own);
    } else {
      assert own[..n] == own[..n - 1] + [own[n - 1]];
      EventsAppend(own[..n - 1], own[n - 1]);
      QuietEvents(own[..n - 1], stream);
    }
  }

  lemma {:induction false} QuietEvents(ms: seq<Object>, stream: bool)
    requires forall k :: 0 <= k < |ms| ==> !Stops(ms[k], stream)
    ensures forall m :: m in Events(ms) ==> !IsTerminal(m)
    ensures !stream ==> LastResult(ms) == None
  {
    if ms != [] { QuietEvents(ms[..|ms| - 1], stream); }
  }

  /** When nothing stopped the reading, the reason is how listening ended, whatever was heard; and only then. */
  lemma ReasonNamesTheEnd(own: seq<Object>, end: Arrival, limit: int, stream: bool)
    ensures var r := ReportOn(own, end, limit, stream);
            var readAll := |own| < limit && forall k :: 0 <= k < |own| ==> !Stops(own[k], stream);
            && (readAll ==>
                  && r.Collected? && r.terminal == None
                  && match end
                     case ServerClosed => r.reason == ByServer
                     case SocketError => r.reason == ByError
                     case Silence => r.reason == BySilence
                     case _ => r.reason == if r.result.Some? then ByResult else ByTimeout)
            && (r.Collected? && !readAll ==>
                  r.reason == if r.terminal.Some? then ByEventResult
                              else if r.result.Some? then ByResult else ByMessageLimit)
  {
    hide ReadUpTo, ReportOn, Events, LastResult, Stops, IsError, IsUnhashable, IsTerminal, IsResult;
    var n := ReadUpTo(own, limit, stream, 0);
    Reported(own, end, limit, stream, n);
    if 0 < n {
      Classify(own[n - 1], stream);
      NextMessage(own, n - 1, limit, stream);
    }
  }

  /** What one message with the command's id comes to when the server closes after it. */
  lemma OneMessage(m: Object, id: string, limit: int, stream: bool)
    requires limit > 1 && "message_id" in m && m["message_id"] == Str(id)
    ensures var arrivals := [Text(Data.Object(m)), ServerClosed];
            ReportOn(Own(arrivals, id), End(arrivals), limit, stream) ==
            if "error_code" in m then Refused(m)
            else if "event" in m then
              (if m["event"].Arr? || m["event"].Obj? then Raised
               else if m["event"] == Str("result") then Collected([m], None, Some(m), ByEventResult)
               else Collected([m], None, None, ByServer))
            else if "result" in m then Collected([], Some(m["result"]), None, if stream then ByServer else ByResult)
            else Collected([], None, None, ByServer)
  {
    hide ReadUpTo, ReportOn, Events, LastResult;
    var arrivals := [Text(Data.Object(m)), ServerClosed];
    assert arrivals[1..] == [ServerClosed];
    assert Own(arrivals, id) == [m] && End(arrivals) == ServerClosed;
    NextMessage([m], 0, limit, stream);
    Halts([m], 1, limit, stream);
    NothingYet([m]);
    Reported([m], ServerClosed, limit, stream, 1);
  }
}
