/**
 * Reading captured calls (rdc_tool/core/capture_queries.py, query_calls): which chunks answer an
 * event, one page of rows under one node budget, and continuation by path and offset.
 */
module CallQueries {
  import opened Wrappers
  import opened CaptureTree
  import opened ProjectionOrder
  import opened Forests

  datatype Event = Event(chunkIndex: int, eventId: int)

  datatype ActionInfo = ActionInfo(eventId: int, events: seq<Event>)

  type Action = Tree<ActionInfo>

  datatype Capture = Capture(chunks: Option<seq<SDObject>>, roots: seq<Action>)

  datatype Association = Association(index: int, event: Option<int>)

  datatype Row = Row(chunkIndex: int, eventId: Option<int>, call: Projection)

  datatype Page = Page(calls: seq<Row>, total: nat, offset: nat, nextOffset: Option<nat>, exhausted: bool)

  /** The arguments of one query, in the source's order. */
  datatype Request = Request(
    eventId: Option<int>, chunkIndices: Option<seq<int>>, offset: nat, limit: nat, maxNodes: int,
    path: seq<int>, childOffset: nat, valueOffset: nat)

  // ----- Which action answers an event: recursive preorder is the meaning of the explicit stack

  predicate Carries(action: Action, eventId: Option<int>) {
    exists i :: 0 <= i < |action.data.events| && Some(action.data.events[i].eventId) == eventId
  }

  predicate Answers(action: Action, eventId: Option<int>) {
    Some(action.data.eventId) == eventId || Carries(action, eventId)
  }

  function EventsWith(events: seq<Event>, eventId: Option<int>): seq<Event> {
    if events == [] then []
    else (if Some(events[0].eventId) == eventId then [events[0]] else []) + EventsWith(events[1..], eventId)
  }

  function Links(events: seq<Event>): (links: seq<Association>)
    ensures |links| == |events|
    ensures forall i :: 0 <= i < |events| ==>
              links[i] == Association(events[i].chunkIndex, Some(events[i].eventId))
  {
    if events == [] then []
    else [Association(events[0].chunkIndex, Some(events[0].eventId))] + Links(events[1..])
  }

  /** All of an action's calls when its own id matches, otherwise only those of the matching events. */
  function AnswerOf(action: Action, eventId: Option<int>): seq<Association> {
    if Some(action.data.eventId) == eventId then Links(action.data.events)
    else Links(EventsWith(action.data.events, eventId))
  }

  function FirstAnswer(actions: seq<Action>, eventId: Option<int>): Option<seq<Association>> {
    if actions == [] then None
    else if Answers(actions[0], eventId) then Some(AnswerOf(actions[0], eventId))
    else FirstAnswer(actions[1..], eventId)
  }

  /** Nothing is found iff no action matches; otherwise the earliest action in preorder decides. */
  lemma {:induction false} FirstAnswerIsEarliest(actions: seq<Action>, eventId: Option<int>)
    ensures FirstAnswer(actions, eventId) == None
       <==> forall i :: 0 <= i < |actions| ==> !Answers(actions[i], eventId)
    ensures forall i :: 0 <= i < |actions| && Answers(actions[i], eventId)
                        && (forall j :: 0 <= j < i ==> !Answers(actions[j], eventId))
              ==> FirstAnswer(actions, eventId) == Some(AnswerOf(actions[i], eventId))
    ensures forall i :: 0 <= i < |actions| ==>
              (Answers(actions[i], eventId) <==>
                 || Some(actions[i].data.eventId) == eventId
                 || exists e :: e in actions[i].data.events && Some(e.eventId) == eventId)
  {
    if actions != [] {
      FirstAnswerIsEarliest(actions[1..], eventId);
      forall i | 0 <= i < |actions| && Answers(actions[i], eventId)
                 && forall j :: 0 <= j < i ==> !Answers(actions[j], eventId)
        ensures FirstAnswer(actions, eventId) == Some(AnswerOf(actions[i], eventId))
      {
        if i > 0 {
          assert actions[1..][i - 1] == actions[i];
        }
      }
    }
  }

  /**
   * An action whose own id matches answers with all of its events; any other with exactly those of the event
   * asked for, of which there is at least one. Both in order.
   */
  lemma AnswerIs(action: Action, eventId: Option<int>)
    requires Answers(action, eventId)
    ensures Some(action.data.eventId) == eventId ==> AnswerOf(action, eventId) == Links(action.data.events)
    ensures Some(action.data.eventId) != eventId ==>
      && AnswerOf(action, eventId) == Links(EventsWith(action.data.events, eventId))
      && AnswerOf(action, eventId) != []
      && forall link :: link in AnswerOf(action, eventId) ==> link.event == eventId
  {
    if Some(action.data.eventId) != eventId {
      var i :| 0 <= i < |action.data.events| && Some(action.data.events[i].eventId) == eventId;
      FilteredEvents(action.data.events, eventId);
      assert action.data.events[i] in EventsWith(action.data.events, eventId);
    }
  }

  /** The events asked for, in order: event by event, each kept iff it matches. */
  lemma {:induction false} EventsWithAppends(events: seq<Event>, e: Event, eventId: Option<int>)
    ensures EventsWith([], eventId) == []
    ensures EventsWith(events + [e], eventId)
         == EventsWith(events, eventId) + if Some(e.eventId) == eventId then [e] else []
  {
    if events == [] {
      assert events + [e] == [e];
    } else {
      assert (events + [e])[0] == events[0] && (events + [e])[1..] == events[1..] + [e];
      EventsWithAppends(events[1..], e, eventId);
      var here := if Some(events[0].eventId) == eventId then [events[0]] else [];
      Associates(here, EventsWith(events[1..], eventId), if Some(e.eventId) == eventId then [e] else []);
    }
  }

  lemma FilteredEvents(events: seq<Event>, eventId: Option<int>)
    ensures forall e :: e in EventsWith(events, eventId) <==> e in events && Some(e.eventId) == eventId
  {
  }

  function Reversed<T>(s: seq<T>): (r: seq<T>)
    ensures |r| == |s| && forall i :: 0 <= i < |s| ==> r[i] == s[|s| - 1 - i]
  {
    if s == [] then [] else Reversed(s[1..]) + [s[0]]
  }

  /** What a stack of pending actions still has to visit, top first. */
  ghost function Pending(stack: seq<Action>): seq<Action> {
    Preorder(Reversed(stack))
  }

  ghost function Weight(actions: seq<Action>): nat {
    if actions == [] then 0 else 1 + Weight(actions[0].children) + Weight(actions[1..])
  }

  lemma {:induction false} WeightConcat(a: seq<Action>, b: seq<Action>)
    ensures Weight(a + b) == Weight(a) + Weight(b)
  {
    if a == [] {
      assert a + b == b;
    } else {
      WeightConcat(a[1..], b);
      assert (a + b)[0] == a[0] && (a + b)[1..] == a[1..] + b;
    }
  }

  lemma PopAndPush(stack: seq<Action>)
    requires stack != []
    ensures var top := stack[|stack| - 1];
            var after := stack[..|stack| - 1] + Reversed(top.children);
            && Pending(stack) == [top] + Pending(after)
            && Weight(Reversed(stack)) == 1 + Weight(Reversed(after))
  {
    var top := stack[|stack| - 1];
    var rest := stack[..|stack| - 1];
    assert Reversed(stack) == [top] + Reversed(rest);
    assert Reversed(rest + Reversed(top.children)) == top.children + Reversed(rest);
    PreorderConcat(top.children, Reversed(rest));
    WeightConcat(top.children, Reversed(rest));
    Associates([top], Preorder(top.children), Preorder(Reversed(rest)));
  }

  /** The explicit-stack search, equal to the first match in recursive preorder. */
  method FindEvent(roots: seq<Action>, eventId: Option<int>) returns (r: Option<seq<Association>>)
    ensures r == FirstAnswer(Preorder(roots), eventId)
  {
    var pending := Reversed(roots);
    assert Reversed(pending) == roots;
    while pending != []
      invariant FirstAnswer(Preorder(roots), eventId) == FirstAnswer(Pending(pending), eventId)
      decreases Weight(Reversed(pending))
    {
      PopAndPush(pending);
      var action := pending[|pending| - 1];
      pending := pending[..|pending| - 1] + Reversed(action.children);
      if Some(action.data.eventId) == eventId {
        return Some(Links(action.data.events));
      }
      var matching := EventsWith(action.data.events, eventId);
      FilteredEvents(action.data.events, eventId);
      if matching != [] {
        assert matching[0] in action.data.events;
        return Some(Links(matching));
      }
    }
    return None;
  }

  // ----- One page

  function ByIndex(indices: seq<int>): (links: seq<Association>)
    ensures |links| == |indices|
    ensures forall i :: 0 <= i < |indices| ==> links[i] == Association(indices[i], None)
  {
    seq(|indices|, i requires 0 <= i < |indices| => Association(indices[i], None))
  }

  function Associations(c: Capture, q: Request): Result<seq<Association>, QueryError> {
    match q.chunkIndices
    case Some(indices) => Success(ByIndex(indices))
    case None =>
      match FirstAnswer(Preorder(c.roots), q.eventId)
      case None => Failure(EventNotFound)
      case Some(links) => Success(links)
  }

  /** Follow an object path; every object counts its children here, whatever its base type. */
  function Walk(o: SDObject, path: seq<int>): (r: Result<SDObject, QueryError>)
    ensures r.Failure? ==> r.error == PathOutside
    decreases path
  {
    if path == [] then Success(o)
    else if path[0] < 0 || |o.children| <= path[0] then Failure(PathOutside)
    else Walk(o.children[path[0]], path[1..])
  }

  predicate NatPath(path: seq<int>) {
    forall i :: 0 <= i < |path| ==> 0 <= path[i]
  }

  function AsNats(path: seq<int>): (r: seq<nat>)
    requires NatPath(path)
    ensures |r| == |path| && forall i :: 0 <= i < |path| ==> r[i] == path[i]
  {
    seq(|path|, i requires 0 <= i < |path| => path[i] as nat)
  }

  lemma {:induction false} WalkedPathIsNat(o: SDObject, path: seq<int>)
    requires Walk(o, path).Success?
    ensures NatPath(path)
  {
    if path != [] {
      WalkedPathIsNat(o.children[path[0]], path[1..]);
      assert forall i :: 0 < i < |path| ==> path[i] == path[1..][i - 1];
    }
  }

  function Slice<T>(s: seq<T>, offset: nat, limit: nat): seq<T> {
    if |s| <= offset then []
    else if |s| < offset + limit then s[offset..]
    else s[offset..offset + limit]
  }

  lemma SliceStaysInside(links: seq<Association>, chunks: seq<SDObject>, offset: nat, limit: nat)
    requires InsideFile(links, chunks)
    ensures InsideFile(Slice(links, offset, limit), chunks)
  {
    forall i | 0 <= i < |Slice(links, offset, limit)|
      ensures Slice(links, offset, limit)[i] == links[offset + i]
    {
    }
  }

  predicate InsideFile(links: seq<Association>, chunks: seq<SDObject>) {
    forall i :: 0 <= i < |links| ==> 0 <= links[i].index < |chunks|
  }

  /** The rows for `links` in order, under one budget, and what is left of it. */
  function Rows(chunks: seq<SDObject>, links: seq<Association>, q: Request, budget: int)
    : (Result<seq<Row>, QueryError>, int)
    requires InsideFile(links, chunks)
    decreases links
  {
    if links == [] || budget <= 0 then (Success([]), budget)
    else
      match Walk(chunks[links[0].index], q.path)
      case Failure(e) => (Failure(e), budget)
      case Success(o) =>
        WalkedPathIsNat(chunks[links[0].index], q.path);
        var (call, left) := Project(o, budget, 0, AsNats(q.path), q.childOffset, q.valueOffset);
        match call
        case Failure(e) => (Failure(e), left)
        case Success(p) =>
          var (rest, left') := Rows(chunks, links[1..], q, left);
          match rest
          case Failure(e) => (Failure(e), left')
          case Success(rows) => (Success([Row(links[0].index, links[0].event, p)] + rows), left')
  }

  predicate Continues(q: Request) {
    q.path != [] || q.childOffset != 0 || q.valueOffset != 0
  }

  /** The reply and the unspent budget. */
  function Query(c: Capture, q: Request): (Result<Page, QueryError>, int) {
    if c.chunks == None then (Failure(NoStructuredData), q.maxNodes)
    else
      var chunks := c.chunks.value;
      match Associations(c, q)
      case Failure(e) => (Failure(e), q.maxNodes)
      case Success(links) =>
        if !InsideFile(links, chunks) then (Failure(ChunkOutside), q.maxNodes)
        else if Continues(q) && |links| != 1 then (Failure(ContinuationNeedsOneChunk), q.maxNodes)
        else
          SliceStaysInside(links, chunks, q.offset, q.limit);
          var (rows, left) := Rows(chunks, Slice(links, q.offset, q.limit), q, q.maxNodes);
          match rows
          case Failure(e) => (Failure(e), left)
          case Success(calls) =>
            (Success(Page(calls, |links|, q.offset, Resumption(q.offset + |calls|, |links|), left == 0)), left)
  }

  method WalkPath(o: SDObject, path: seq<int>) returns (r: Result<SDObject, QueryError>)
    ensures r == Walk(o, path)
  {
    var at := o;
    for k := 0 to |path|
      invariant Walk(o, path) == Walk(at, path[k..])
    {
      if path[k] < 0 || path[k] >= |at.children| {
        return Failure(PathOutside);
      }
      at := at.children[path[k]];
      assert path[k..][1..] == path[k + 1..];
    }
    return Success(at);
  }

  method QueryCalls(c: Capture, q: Request) returns (r: Result<Page, QueryError>)
    ensures r == Query(c, q).0
  {
    if c.chunks == None {
      return Failure(NoStructuredData);
    }
    var chunks := c.chunks.value;
    var links: seq<Association>;
    if q.chunkIndices.Some? {
      links := ByIndex(q.chunkIndices.value);
    } else {
      var found := FindEvent(c.roots, q.eventId);
      if found == None {
        return Failure(EventNotFound);
      }
      links := found.value;
    }
    if !InsideFile(links, chunks) {
      return Failure(ChunkOutside);
    }
    if Continues(q) && |links| != 1 {
      return Failure(ContinuationNeedsOneChunk);
    }
    SliceStaysInside(links, chunks, q.offset, q.limit);
    var budget := new Budget(q.maxNodes);
    var rows := CollectRows(chunks, Slice(links, q.offset, q.limit), q, budget);
    if rows.Failure? {
      return Failure(rows.error);
    }
    var next := q.offset + |rows.value|;
    return Success(Page(rows.value, |links|, q.offset, Resumption(next, |links|), budget.left == 0));
  }

  method CollectRows(chunks: seq<SDObject>, wanted: seq<Association>, q: Request, budget: Budget)
    returns (r: Result<seq<Row>, QueryError>)
    requires InsideFile(wanted, chunks)
    modifies budget
    ensures (r, budget.left) == Rows(chunks, wanted, q, old(budget.left))
  {
    ghost var whole := Rows(chunks, wanted, q, budget.left);
    var rows: seq<Row> := [];
    var k := 0;
    NothingPrefixed(whole);
    assert wanted[k..] == wanted;
    while k < |wanted| && budget.left > 0
      invariant 0 <= k <= |wanted|
      invariant whole == Prefixed(rows, Rows(chunks, wanted[k..], q, budget.left))
      decreases |wanted| - k
    {
      var link := wanted[k];
      assert wanted[k..][0] == link && wanted[k..][1..] == wanted[k + 1..];
      var o := WalkPath(chunks[link.index], q.path);
      if o.Failure? {
        return Failure(o.error);
      }
      WalkedPathIsNat(chunks[link.index], q.path);
      var call := StructuredObject(o.value, budget, 0, AsNats(q.path), q.childOffset, q.valueOffset);
      if call.Failure? {
        return Failure(call.error);
      }
      var row := Row(link.index, link.event, call.value);
      PrefixedTwice(rows, row, Rows(chunks, wanted[k + 1..], q, budget.left));
      rows := rows + [row];
      k := k + 1;
    }
    assert rows + [] == rows;
    return Success(rows);
  }

  lemma NothingPrefixed(r: (Result<seq<Row>, QueryError>, int))
    ensures Prefixed([], r) == r
  {
    assert r.0.Success? ==> [] + r.0.value == r.0.value;
  }

  lemma PrefixedTwice(rows: seq<Row>, row: Row, r: (Result<seq<Row>, QueryError>, int))
    ensures Prefixed(rows, Prefixed([row], r)) == Prefixed(rows + [row], r)
  {
    assert r.0.Success? ==> rows + ([row] + r.0.value) == (rows + [row]) + r.0.value;
  }

  ghost function Prefixed(rows: seq<Row>, r: (Result<seq<Row>, QueryError>, int))
    : (Result<seq<Row>, QueryError>, int)
  {
    match r.0
    case Failure(e) => r
    case Success(more) => (Success(rows + more), r.1)
  }

  // ----- Budget conservation over one reply

  function EmittedRows(rows: seq<Row>): nat {
    if rows == [] then 0 else Emitted(rows[0].call) + EmittedRows(rows[1..])
  }

  lemma {:induction false} RowsConserveBudget(chunks: seq<SDObject>, links: seq<Association>, q: Request, budget: int)
    requires InsideFile(links, chunks) && 0 <= budget
    ensures var (rows, left) := Rows(chunks, links, q, budget);
            && 0 <= left
            && rows != Failure(BudgetExhausted)
            && (rows.Success? ==> EmittedRows(rows.value) == budget - left)
  {
    if links != [] && 0 < budget && Walk(chunks[links[0].index], q.path).Success? {
      var o := Walk(chunks[links[0].index], q.path).value;
      WalkedPathIsNat(chunks[links[0].index], q.path);
      var (call, left) := Project(o, budget, 0, AsNats(q.path), q.childOffset, q.valueOffset);
      if call.Success? {
        BudgetConserved(o, budget, 0, AsNats(q.path), q.childOffset, q.valueOffset);
        RowsConserveBudget(chunks, links[1..], q, left);
        var rest := Rows(chunks, links[1..], q, left).0;
        if rest.Success? {
          assert ([Row(links[0].index, links[0].event, call.value)] + rest.value)[1..] == rest.value;
        }
      }
    }
  }

  /** Emitted nodes and unspent budget add up; the inner exhaustion error never leaves a query. */
  lemma QueryConservesBudget(c: Capture, q: Request)
    requires 0 <= q.maxNodes
    ensures var (r, left) := Query(c, q);
            && r != Failure(BudgetExhausted)
            && 0 <= left
            && (r.Success? ==>
                  && EmittedRows(r.value.calls) + left == q.maxNodes
                  && (r.value.exhausted <==> EmittedRows(r.value.calls) == q.maxNodes))
  {
    if c.chunks.Some? && Associations(c, q).Success? {
      var links := Associations(c, q).value;
      if InsideFile(links, c.chunks.value) {
        RowsConserveBudget(c.chunks.value, Slice(links, q.offset, q.limit), q, q.maxNodes);
      }
    }
  }

  // ----- When a query fails

  /** What a caller can check beforehand: the offsets and the path fit the single continued object. */
  predicate ContinuationFits(chunks: seq<SDObject>, links: seq<Association>, q: Request)
    requires InsideFile(links, chunks)
  {
    Continues(q) ==>
      && |links| == 1
      && (q.offset == 0 && 0 < q.limit && 0 < q.maxNodes ==>
            var o := Walk(chunks[links[0].index], q.path);
            o.Success? && OffsetsInside(o.value, q.childOffset, q.valueOffset))
  }

  lemma {:induction false} PlainRowsNeverFail(chunks: seq<SDObject>, links: seq<Association>, q: Request, budget: int)
    requires InsideFile(links, chunks) && !Continues(q)
    ensures Rows(chunks, links, q, budget).0.Success?
  {
    if links != [] && 0 < budget {
      var o := chunks[links[0].index];
      PlainRowsNeverFail(chunks, links[1..], q, Project(o, budget, 0, AsNats(q.path), 0, 0).1);
    }
  }

  lemma QuerySucceedsIff(c: Capture, q: Request)
    ensures Query(c, q).0.Success? <==>
      && c.chunks.Some?
      && Associations(c, q).Success?
      && InsideFile(Associations(c, q).value, c.chunks.value)
      && ContinuationFits(c.chunks.value, Associations(c, q).value, q)
  {
    if c.chunks.Some? && Associations(c, q).Success? {
      var chunks, links := c.chunks.value, Associations(c, q).value;
      if InsideFile(links, chunks) {
        var wanted := Slice(links, q.offset, q.limit);
        if !Continues(q) {
          PlainRowsNeverFail(chunks, wanted, q, q.maxNodes);
        } else if |links| == 1 {
          SingleRow(chunks, wanted, q);
        }
      }
    }
  }

  lemma SingleRow(chunks: seq<SDObject>, wanted: seq<Association>, q: Request)
    requires InsideFile(wanted, chunks) && |wanted| <= 1
    ensures Rows(chunks, wanted, q, q.maxNodes).0.Success? <==>
      (wanted != [] && 0 < q.maxNodes ==>
         var o := Walk(chunks[wanted[0].index], q.path);
         o.Success? && OffsetsInside(o.value, q.childOffset, q.valueOffset))
  {
    if wanted != [] && 0 < q.maxNodes && Walk(chunks[wanted[0].index], q.path).Success? {
      var o := Walk(chunks[wanted[0].index], q.path).value;
      WalkedPathIsNat(chunks[wanted[0].index], q.path);
      var left := Project(o, q.maxNodes, 0, AsNats(q.path), q.childOffset, q.valueOffset).1;
      assert Rows(chunks, wanted[1..], q, left).0 == Success([]);
    }
  }

  // ----- Following next_offset

  lemma {:induction false} RowsFollowLinks(chunks: seq<SDObject>, links: seq<Association>, q: Request, budget: int)
    requires InsideFile(links, chunks) && Rows(chunks, links, q, budget).0.Success?
    ensures var rows := Rows(chunks, links, q, budget).0.value;
            && |rows| <= |links|
            && (links != [] && 0 < budget ==> rows != [])
            && Keys(rows) == links[..|rows|]
  {
    if links != [] && 0 < budget {
      var o := Walk(chunks[links[0].index], q.path).value;
      WalkedPathIsNat(chunks[links[0].index], q.path);
      var left := Project(o, budget, 0, AsNats(q.path), q.childOffset, q.valueOffset).1;
      RowsFollowLinks(chunks, links[1..], q, left);
      var rest := Rows(chunks, links[1..], q, left).0.value;
      var rows := Rows(chunks, links, q, budget).0.value;
      assert rows[1..] == rest;
      assert links[..|rows|] == [links[0]] + links[1..][..|rest|];
    }
  }

  function Keys(rows: seq<Row>): seq<Association> {
    if rows == [] then []
    else [Association(rows[0].chunkIndex, rows[0].eventId)] + Keys(rows[1..])
  }

  lemma PageAdvances(c: Capture, q: Request)
    requires !Continues(q) && 0 < q.limit && 0 < q.maxNodes && Query(c, q).0.Success?
    ensures var page := Query(c, q).0.value;
            var links := Associations(c, q).value;
            && page.total == |links|
            && (q.offset < |links| ==>
                  && 0 < |page.calls| <= |links| - q.offset
                  && Keys(page.calls) == links[q.offset..q.offset + |page.calls|])
            && (|links| <= q.offset ==> page.calls == [])
            && page.nextOffset == Resumption(q.offset + |page.calls|, |links|)
  {
    var links := Associations(c, q).value;
    var wanted := Slice(links, q.offset, q.limit);
    RowsFollowLinks(c.chunks.value, wanted, q, q.maxNodes);
    if q.offset < |links| {
      var n := |Query(c, q).0.value.calls|;
      assert wanted[..n] == links[q.offset..q.offset + n];
    }
  }

  /** The rows a client collects by asking again at every `next_offset`. */
  function AllPages(c: Capture, q: Request): seq<Association>
    requires !Continues(q) && 0 < q.limit && 0 < q.maxNodes && Query(c, q).0.Success?
    decreases var links := Associations(c, q).value; if q.offset < |links| then |links| - q.offset else 0
  {
    PageAdvances(c, q);
    var page := Query(c, q).0.value;
    if page.nextOffset.None? then Keys(page.calls)
    else
      SameButOffset(c, q, page.nextOffset.value);
      Keys(page.calls) + AllPages(c, q.(offset := page.nextOffset.value))
  }

  /** Paging loses and repeats nothing, for every page size and node budget. */
  lemma {:induction false} PagesConcatenate(c: Capture, q: Request)
    requires !Continues(q) && 0 < q.limit && 0 < q.maxNodes && Query(c, q).0.Success?
    requires q.offset <= |Associations(c, q).value|
    ensures AllPages(c, q) == Associations(c, q).value[q.offset..]
    decreases |Associations(c, q).value| - q.offset
  {
    var links := Associations(c, q).value;
    var page := Query(c, q).0.value;
    NextPage(c, q);
    if page.nextOffset.Some? {
      var next := page.nextOffset.value;
      PagesConcatenate(c, q.(offset := next));
      SplitAt(links, q.offset, next);
    }
  }

  /** A page shows the associations up to its next offset, or all that are left. */
  lemma NextPage(c: Capture, q: Request)
    requires !Continues(q) && 0 < q.limit && 0 < q.maxNodes && Query(c, q).0.Success?
    requires q.offset <= |Associations(c, q).value|
    ensures var links, page := Associations(c, q).value, Query(c, q).0.value;
            match page.nextOffset
            case None => Keys(page.calls) == links[q.offset..]
            case Some(next) =>
              && q.offset < next < |links|
              && Keys(page.calls) == links[q.offset..next]
              && !Continues(q.(offset := next)) && Query(c, q.(offset := next)).0.Success?
              && Associations(c, q.(offset := next)) == Associations(c, q)
  {
    PageAdvances(c, q);
    var page := Query(c, q).0.value;
    if page.nextOffset.Some? {
      SameButOffset(c, q, page.nextOffset.value);
    }
  }

  lemma SplitAt<T>(s: seq<T>, from: nat, middle: nat)
    requires from <= middle <= |s|
    ensures s[from..] == s[from..middle] + s[middle..]
  {
  }

  lemma SameButOffset(c: Capture, q: Request, offset: nat)
    requires !Continues(q) && Query(c, q).0.Success?
    ensures !Continues(q.(offset := offset)) && Query(c, q.(offset := offset)).0.Success?
    ensures Associations(c, q.(offset := offset)) == Associations(c, q)
  {
    QuerySucceedsIff(c, q);
    QuerySucceedsIff(c, q.(offset := offset));
  }

  // ----- What the rows show

  /** A path leads on child by child, whatever the type of the object, and outside nowhere. */
  lemma {:induction false} WalkExtends(o: SDObject, path: seq<int>, index: int)
    ensures Walk(o, []) == Success(o)
    ensures Walk(o, path + [index]) ==
      match Walk(o, path)
      case Failure(e) => Failure(e)
      case Success(at) =>
        if 0 <= index < |at.children| then Success(at.children[index]) else Failure(PathOutside)
  {
    if path == [] {
      assert (path + [index])[1..] == [];
    } else {
      assert (path + [index])[0] == path[0] && (path + [index])[1..] == path[1..] + [index];
      if 0 <= path[0] < |o.children| {
        WalkExtends(o.children[path[0]], path[1..], index);
      }
    }
  }

  /** The row of `link` shows the object at the requested path of its own chunk, from the requested offsets on. */
  ghost predicate RowShows(chunks: seq<SDObject>, link: Association, q: Request, budget: int, row: Row) {
    && 0 <= link.index < |chunks|
    && row.chunkIndex == link.index && row.eventId == link.event
    && Walk(chunks[link.index], q.path).Success?
    && NatPath(q.path)
    && var o := Walk(chunks[link.index], q.path).value;
       && Faithful(o, AsNats(q.path), q.childOffset, q.valueOffset, row.call)
       && Paths(row.call) == First(Nodes(o, 0, AsNats(q.path), q.childOffset), budget)
  }

  lemma {:induction false} RowsShowLinks(
    chunks: seq<SDObject>, links: seq<Association>, q: Request, budget: int, i: nat)
    requires InsideFile(links, chunks) && 0 <= budget && Rows(chunks, links, q, budget).0.Success?
    requires i < |Rows(chunks, links, q, budget).0.value|
    ensures var rows := Rows(chunks, links, q, budget).0.value;
            i < |links| && RowShows(chunks, links[i], q, budget - EmittedRows(rows[..i]), rows[i])
  {
    FirstRowShows(chunks, links, q, budget);
    if 0 < i {
      var rows := Rows(chunks, links, q, budget).0.value;
      var left := budget - Emitted(rows[0].call);
      RowsShowLinks(chunks, links[1..], q, left, i - 1);
      var rest := Rows(chunks, links[1..], q, left).0.value;
      assert rows[..i][1..] == rest[..i - 1] && rows[..i][0] == rows[0] && rows[i] == rest[i - 1];
    }
  }

  /** The first row, and the rows after it from the budget that it leaves. */
  lemma FirstRowShows(chunks: seq<SDObject>, links: seq<Association>, q: Request, budget: int)
    requires InsideFile(links, chunks) && 0 <= budget && Rows(chunks, links, q, budget).0.Success?
    requires Rows(chunks, links, q, budget).0.value != []
    ensures var rows := Rows(chunks, links, q, budget).0.value;
            && links != [] && RowShows(chunks, links[0], q, budget, rows[0])
            && var left := budget - Emitted(rows[0].call);
               && 0 <= left
               && Rows(chunks, links[1..], q, left).0 == Success(rows[1..])
  {
    var o := Walk(chunks[links[0].index], q.path).value;
    WalkedPathIsNat(chunks[links[0].index], q.path);
    var path := AsNats(q.path);
    FillIsFaithful(o, budget, 0, path, q.childOffset, q.valueOffset);
    FillIsPreorderPrefix(o, budget, 0, path, q.childOffset, q.valueOffset);
    BudgetConserved(o, budget, 0, path, q.childOffset, q.valueOffset);
  }

  /** Rows end only with the links or the budget. */
  lemma {:induction false} RowsStopForBudget(chunks: seq<SDObject>, links: seq<Association>, q: Request, budget: int)
    requires InsideFile(links, chunks) && 0 <= budget && Rows(chunks, links, q, budget).0.Success?
    ensures var (rows, left) := Rows(chunks, links, q, budget);
            |rows.value| < |links| ==> left == 0
  {
    if links != [] && 0 < budget {
      var o := Walk(chunks[links[0].index], q.path).value;
      WalkedPathIsNat(chunks[links[0].index], q.path);
      var path := AsNats(q.path);
      BudgetConserved(o, budget, 0, path, q.childOffset, q.valueOffset);
      RowsStopForBudget(chunks, links[1..], q, Project(o, budget, 0, path, q.childOffset, q.valueOffset).1);
    }
  }

  /** The frame of every successful reply; rows end only with the page, the associations or the budget. */
  lemma QueryFrames(c: Capture, q: Request)
    requires 0 <= q.maxNodes && Query(c, q).0.Success?
    ensures var page, links := Query(c, q).0.value, Associations(c, q).value;
            && page.offset == q.offset && page.total == |links|
            && |page.calls| <= q.limit
            && (page.calls != [] ==> q.offset + |page.calls| <= |links|)
            && (|page.calls| < q.limit && q.offset + |page.calls| < |links| ==> page.exhausted)
  {
    var wanted := Slice(Associations(c, q).value, q.offset, q.limit);
    RowsFollowLinks(c.chunks.value, wanted, q, q.maxNodes);
    RowsStopForBudget(c.chunks.value, wanted, q, q.maxNodes);
  }

  /**
   * Each row of every successful reply belongs to the association at its place, and shows that one's object
   * as far as the budget left by the rows before it goes.
   */
  lemma QueryShowsLinks(c: Capture, q: Request, i: nat)
    requires 0 <= q.maxNodes && Query(c, q).0.Success? && i < |Query(c, q).0.value.calls|
    ensures var page, links := Query(c, q).0.value, Associations(c, q).value;
            && q.offset + i < |links|
            && var left := q.maxNodes - EmittedRows(page.calls[..i]);
               RowShows(c.chunks.value, links[q.offset + i], q, left, page.calls[i])
  {
    var wanted := Slice(Associations(c, q).value, q.offset, q.limit);
    RowsShowLinks(c.chunks.value, wanted, q, q.maxNodes, i);
  }

  // ----- Which error

  /** What the chunks of a query come from. */
  lemma AssociationsAre(c: Capture, q: Request)
    ensures q.chunkIndices.Some? ==>
      && Associations(c, q).Success?
      && var links := Associations(c, q).value;
         && |links| == |q.chunkIndices.value|
         && forall i :: 0 <= i < |links| ==> links[i] == Association(q.chunkIndices.value[i], None)
    ensures q.chunkIndices.None? ==>
      Associations(c, q) ==
        match FirstAnswer(Preorder(c.roots), q.eventId)
        case None => Failure(EventNotFound)
        case Some(links) => Success(links)
  {
  }

  /** A row is wanted and can be paid for. */
  predicate Asks(links: seq<Association>, q: Request) {
    q.offset < |links| && 0 < q.limit && 0 < q.maxNodes
  }

  /** The errors before any row, in the order of their checks. */
  lemma QueryRefusesIff(c: Capture, q: Request)
    ensures var (r, left) := Query(c, q);
            && (r == Failure(NoStructuredData) <==> c.chunks == None)
            && (c.chunks.Some? ==> (r == Failure(EventNotFound) <==> Associations(c, q).Failure?))
            && (c.chunks.Some? && Associations(c, q).Success? ==>
                  var links := Associations(c, q).value;
                  var inside := forall i :: 0 <= i < |links| ==> 0 <= links[i].index < |c.chunks.value|;
                  var plain := q.path == [] && q.childOffset == 0 && q.valueOffset == 0;
                  && (r == Failure(ChunkOutside) <==> !inside)
                  && (r == Failure(ContinuationNeedsOneChunk) <==> inside && !plain && |links| != 1))
  {
    if c.chunks.Some? && Associations(c, q).Success? {
      var links := Associations(c, q).value;
      if InsideFile(links, c.chunks.value) {
        RowErrors(c.chunks.value, Slice(links, q.offset, q.limit), q, q.maxNodes);
      }
    }
  }

  lemma {:induction false} RowErrors(chunks: seq<SDObject>, links: seq<Association>, q: Request, budget: int)
    requires InsideFile(links, chunks)
    ensures var r := Rows(chunks, links, q, budget).0;
            r.Failure? ==> r.error in {PathOutside, ChildOffsetOutside, ValueOffsetOutside, BudgetExhausted}
  {
    if links != [] && 0 < budget && Walk(chunks[links[0].index], q.path).Success? {
      WalkedPathIsNat(chunks[links[0].index], q.path);
      var o := Walk(chunks[links[0].index], q.path).value;
      RowErrors(chunks, links[1..], q, Project(o, budget, 0, AsNats(q.path), q.childOffset, q.valueOffset).1);
    }
  }

  /** A continuation fails exactly because of its path or of the offset for the object's type. */
  lemma ContinuationFailsIff(c: Capture, q: Request)
    requires c.chunks.Some? && Associations(c, q).Success? && Continues(q)
    requires |Associations(c, q).value| == 1 && InsideFile(Associations(c, q).value, c.chunks.value)
    ensures var r, links := Query(c, q).0, Associations(c, q).value;
            var at := Walk(c.chunks.value[links[0].index], q.path);
            && (r == Failure(PathOutside) <==> Asks(links, q) && at.Failure?)
            && (r == Failure(ChildOffsetOutside) <==>
                  && Asks(links, q) && at.Success?
                  && at.value.base in {Chunk, Struct, Array} && |at.value.children| < q.childOffset)
            && (r == Failure(ValueOffsetOutside) <==>
                  && Asks(links, q) && at.Success?
                  && at.value.base == String && |at.value.text| < q.valueOffset)
  {
    var links := Associations(c, q).value;
    var wanted := Slice(links, q.offset, q.limit);
    if Asks(links, q) {
      assert wanted == links;
      OnlyRowFailsIff(c.chunks.value, links, q);
    } else {
      assert wanted == [] || q.maxNodes <= 0;
    }
  }

  lemma OnlyRowFailsIff(chunks: seq<SDObject>, links: seq<Association>, q: Request)
    requires |links| == 1 && InsideFile(links, chunks) && 0 < q.maxNodes
    ensures var r := Rows(chunks, links, q, q.maxNodes).0;
            var at := Walk(chunks[links[0].index], q.path);
            && (r == Failure(PathOutside) <==> at.Failure?)
            && (r == Failure(ChildOffsetOutside) <==>
                  at.Success? && at.value.base in {Chunk, Struct, Array} && |at.value.children| < q.childOffset)
            && (r == Failure(ValueOffsetOutside) <==>
                  at.Success? && at.value.base == String && |at.value.text| < q.valueOffset)
  {
    if Walk(chunks[links[0].index], q.path).Success? {
      WalkedPathIsNat(chunks[links[0].index], q.path);
      var o := Walk(chunks[links[0].index], q.path).value;
      var left := Project(o, q.maxNodes, 0, AsNats(q.path), q.childOffset, q.valueOffset).1;
      assert links[1..] == [] && Rows(chunks, links[1..], q, left).0 == Success([]);
    }
  }
}
