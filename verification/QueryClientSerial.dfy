/** The query client as an object, proved against `Queries`. */
module QueryClients {
  import opened Queries

  class QueryClientSerial {
    var queryTid: int
    var queryMap: map<int, Query>
    var timers: set<int>
    var finished: seq<(int, Outcome)>   // the results handed out
    ghost var lost: set<int>
    ghost var created: seq<int>

    ghost function View(): Client
      reads this
    {
      Client(queryTid, queryMap, timers, finished, lost, created)
    }

    constructor ()
      ensures View() == INITIAL
    {
      queryTid, queryMap, timers, finished, lost, created := 1, map[], {}, [], {}, [];
    }

    method CreateQuery(text: string, useTimeout: bool) returns (query: Query)
      modifies this
      ensures View() == Created(old(View()), text, useTimeout)
      ensures query == Query(old(queryTid), text, useTimeout)
    {
      var tid := queryTid;
      queryTid := queryTid + 2;
      query := Query(tid, text, useTimeout);
      queryMap := queryMap[tid := query];
      created := created + [tid];
    }

    /** Hands the query to the interface; `sending` is what the interface makes of it. */
    method Execute(query: Query, sending: Sending)
      modifies this
      ensures View() == Executed(old(View()), query.tid, sending)
    {
      match sending
      case NoHandler =>
        finished := finished + [(query.tid, Refused)];
        queryMap := queryMap - {query.tid};
      case Offline =>
        finished := finished + [(query.tid, Refused)];
        queryMap := queryMap - {query.tid};
        DisconnectSignals(query.tid);
      case Accepted =>
    }

    method DisconnectSignals(tid: int)
      modifies this`timers
      ensures timers == old(timers) - {tid}
    {
      timers := timers - {tid};
    }

    method OnQuerySent(tid: int)
      modifies this
      ensures View() == OnSent(old(View()), tid)
    {
      if tid !in queryMap {
        return;
      }
      if queryMap[tid].useTimeout {
        timers := timers + {tid};
      }
    }

    /** A reply that does not parse throws after the query left the map. */
    method OnResponseReady(response: string, parses: bool, tid: int)
      modifies this
      ensures View() == OnResponse(old(View()), tid, response, parses)
    {
      if tid !in queryMap {
        return;
      }
      queryMap := queryMap - {tid};
      DisconnectSignals(tid);
      if !parses {
        lost := lost + {tid};
        return;
      }
      finished := finished + [(tid, Replied(response))];
    }

    method OnQueryTimeout(tid: int)
      modifies this
      ensures View() == OnTimeout(old(View()), tid)
    {
      if tid !in queryMap {
        return;
      }
      queryMap := queryMap - {tid};
      DisconnectSignals(tid);
      finished := finished + [(tid, TimedOut)];
    }

    method OnQueryError(tid: int)
      modifies this
      ensures View() == OnFailure(old(View()), tid)
    {
      if tid !in queryMap {
        return;
      }
      queryMap := queryMap - {tid};
      DisconnectSignals(tid);
      finished := finished + [(tid, ConnectionFailed)];
    }
  }
}
