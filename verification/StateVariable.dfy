/** State variables: each tells the device controller its latest value, one query at a time. */
module StateVariables {
  const UNKNOWN := "unknown"
  const READY := "ready"

  /** `accepted` are the requests that changed the pending value, `sent` the values sent, `healthy` whether the last reply
      was a success. */
  datatype Var = Var(current: string, query: string, pending: string, inFlight: bool,
                     accepted: seq<string>, sent: seq<string>, healthy: bool)

  const FRESH := Var(UNKNOWN, UNKNOWN, UNKNOWN, false, [], [], true)

  function Send(v: Var): Var
  {
    v.(query := v.pending, inFlight := true, sent := v.sent + [v.pending])
  }

  /** A request that is not held back. */
  function Accept(v: Var, state: string): Var
  {
    if state == v.pending then v
    else
      var v1 := v.(pending := state, accepted := v.accepted + [state]);
      if v1.inFlight then v1 else Send(v1)
  }

  function Confirm(v: Var, ok: bool): Var
  {
    if !ok then v.(inFlight := false, healthy := false)
    else
      var v1 := v.(current := v.query, inFlight := false, healthy := true);
      if v1.pending != v1.current then Send(v1) else v1
  }

  // ---------------------------------------------------------------- one variable

  predicate NoneTwice(values: seq<string>)
  {
    forall i | 0 < i < |values| :: values[i - 1] != values[i]
  }

  /** `s` can be read off `t` by leaving elements out. */
  predicate Subsequence(s: seq<string>, t: seq<string>)
    decreases |t|
  {
    s == [] || (t != [] && if s[|s| - 1] == t[|t| - 1] then Subsequence(s[..|s| - 1], t[..|t| - 1])
                           else Subsequence(s, t[..|t| - 1]))
  }

  function Latest(values: seq<string>): string
  {
    if values == [] then UNKNOWN else values[|values| - 1]
  }

  /** What holds of a variable whatever the replies. */
  predicate VarInv(v: Var)
  {
    && v.pending == Latest(v.accepted) && v.query == Latest(v.sent)
    && (!v.inFlight && v.healthy ==> v.current == v.query == v.pending)
    && NoneTwice([UNKNOWN] + v.accepted) && Subsequence(v.sent, v.accepted)
  }

  /** What holds as long as all replies are successes. */
  predicate HealthyInv(v: Var)
  {
    && v.healthy && (v.inFlight || v.current == v.pending)
    && NoneTwice([UNKNOWN] + v.sent)
  }

  lemma NoneTwiceSnoc(values: seq<string>, x: string)
    requires NoneTwice([UNKNOWN] + values) && x != Latest(values)
    ensures NoneTwice([UNKNOWN] + (values + [x]))
  {
    var longer := [UNKNOWN] + (values + [x]);
    forall i | 0 < i < |longer|
      ensures longer[i - 1] != longer[i]
    {
      if i <= |values| {
        assert longer[i] == ([UNKNOWN] + values)[i] && longer[i - 1] == ([UNKNOWN] + values)[i - 1];
      }
    }
  }

  lemma {:induction false} SubsequenceInit(s: seq<string>, t: seq<string>)
    requires Subsequence(s, t) && s != []
    ensures Subsequence(s[..|s| - 1], t)
    decreases |t|
  {
    var s', t' := s[..|s| - 1], t[..|t| - 1];
    if s[|s| - 1] == t[|t| - 1] {
      if s' != [] && s'[|s'| - 1] == t[|t| - 1] {
        SubsequenceInit(s', t');
      }
    } else {
      SubsequenceInit(s, t');
      if s' != [] && s'[|s'| - 1] == t[|t| - 1] {
        SubsequenceInit(s', t');
      }
    }
  }

  lemma SubsequenceGrows(s: seq<string>, t: seq<string>, x: string)
    requires Subsequence(s, t)
    ensures Subsequence(s, t + [x])
  {
    assert (t + [x])[..|t|] == t;
    if s != [] && s[|s| - 1] == x {
      SubsequenceInit(s, t);
    }
  }

  /** A value that is the latest accepted but not the latest sent can be sent. */
  lemma SubsequenceSent(s: seq<string>, t: seq<string>)
    requires Subsequence(s, t) && t != [] && Latest(s) != Latest(t)
    ensures Subsequence(s + [Latest(t)], t)
  {
    assert (s + [Latest(t)])[..|s|] == s;
  }

  lemma AcceptKeeps(v: Var, state: string)
    requires VarInv(v)
    ensures VarInv(Accept(v, state)) && (HealthyInv(v) ==> HealthyInv(Accept(v, state)))
  {
    if state != v.pending {
      NoneTwiceSnoc(v.accepted, state);
      SubsequenceGrows(v.sent, v.accepted, state);
      assert (v.sent + [state])[..|v.sent|] == v.sent && (v.accepted + [state])[..|v.accepted|] == v.accepted;
      if HealthyInv(v) && !v.inFlight {
        NoneTwiceSnoc(v.sent, state);
      }
    }
  }

  lemma ConfirmKeeps(v: Var, ok: bool)
    requires VarInv(v) && v.inFlight
    ensures VarInv(Confirm(v, ok)) && (HealthyInv(v) && ok ==> HealthyInv(Confirm(v, ok)))
  {
    if ok && v.pending != v.query {
      SubsequenceSent(v.sent, v.accepted);
      if HealthyInv(v) {
        NoneTwiceSnoc(v.sent, v.pending);
      }
    }
  }

  // ---------------------------------------------------------------- all variables, and the master

  /** `submitted` are the variables that had a success, and the master once it was asked to be ready. */
  datatype System = System(vars: seq<Var>, master: nat, submitted: set<nat>)

  predicate Valid(s: System)
  {
    s.master < |s.vars| && forall v | v in s.submitted :: v < |s.vars|
  }

  /** Everybody has submitted; `|vars|` is the number of variables the program is built for. */
  predicate Full(s: System)
  {
    |s.submitted| == |s.vars|
  }

  function Put(s: System, v: nat, x: Var): System
    requires v < |s.vars|
  {
    s.(vars := s.vars[v := x])
  }

  /** The master's wish to be ready is held back until everybody has submitted. */
  function SetState(s: System, v: nat, state: string): (s': System)
    requires Valid(s) && v < |s.vars|
    ensures Valid(s') && |s'.vars| == |s.vars| && s'.master == s.master
  {
    if v == s.master && state == READY then
      var s1 := s.(submitted := s.submitted + {v});
      if !Full(s1) then s1 else Put(s1, v, Accept(s1.vars[v], state))
    else Put(s, v, Accept(s.vars[v], state))
  }

  function OnQueryFinish(s: System, v: nat, ok: bool): (s': System)
    requires Valid(s) && v < |s.vars|
    ensures Valid(s') && |s'.vars| == |s.vars| && s'.master == s.master
  {
    var s1 := Put(s, v, Confirm(s.vars[v], ok));
    if !ok || v == s.master then s1
    else
      var s2 := s1.(submitted := s1.submitted + {v});
      if Full(s2) then SetState(s2, s2.master, READY) else s2
  }

  datatype Event = Request(v: nat, state: string) | Finish(v: nat, ok: bool)

  /** A reply comes only to a query under way. */
  predicate Possible(s: System, e: Event)
  {
    e.v < |s.vars| && (e.Finish? ==> s.vars[e.v].inFlight)
  }

  function Step(s: System, e: Event): (s': System)
    requires Valid(s)
    ensures Valid(s') && |s'.vars| == |s.vars| && s'.master == s.master
  {
    if !Possible(s, e) then s
    else
      match e
      case Request(v, state) => SetState(s, v, state)
      case Finish(v, ok) => OnQueryFinish(s, v, ok)
  }

  function Run(s: System, events: seq<Event>): (s': System)
    requires Valid(s)
    ensures Valid(s') && |s'.vars| == |s.vars| && s'.master == s.master
    decreases |events|
  {
    if events == [] then s else Run(Step(s, events[0]), events[1..])
  }

  function Fresh(n: nat): seq<Var>
    ensures |Fresh(n)| == n && forall i | 0 <= i < n :: Fresh(n)[i] == FRESH
  {
    if n == 0 then [] else Fresh(n - 1) + [FRESH]
  }

  function Initial(n: nat, master: nat): (s: System)
    requires master < n
    ensures Valid(s)
  {
    System(Fresh(n), master, {})
  }

  /** At first every value is unknown, and a request for anything else is sent at once. */
  lemma UnknownAtFirst(n: nat, master: nat, v: nat, state: string)
    requires master < n && v < n && v != master
    ensures var s := Initial(n, master);
            && s.vars[v].current == "unknown"
            && Step(s, Request(v, state)).vars[v].sent == if state == "unknown" then [] else [state]
  {
  }

  // ---------------------------------------------------------------- publication

  predicate AllInv(s: System)
  {
    forall v | 0 <= v < |s.vars| :: VarInv(s.vars[v])
  }

  predicate AllHealthy(s: System)
  {
    forall v | 0 <= v < |s.vars| :: HealthyInv(s.vars[v])
  }

  lemma SetStateKeeps(s: System, v: nat, state: string)
    requires Valid(s) && v < |s.vars| && AllInv(s)
    ensures AllInv(SetState(s, v, state)) && (AllHealthy(s) ==> AllHealthy(SetState(s, v, state)))
  {
    hide VarInv, HealthyInv, Accept;
    AcceptKeeps(s.vars[v], state);
  }

  lemma StepKeeps(s: System, e: Event)
    requires Valid(s) && AllInv(s)
    ensures AllInv(Step(s, e))
    ensures AllHealthy(s) && (e.Finish? ==> e.ok) ==> AllHealthy(Step(s, e))
  {
    hide VarInv, HealthyInv, Accept, Confirm, SetState;
    if Possible(s, e) {
      match e
      case Request(v, state) => SetStateKeeps(s, v, state);
      case Finish(v, ok) =>
        ConfirmKeeps(s.vars[v], ok);
        var s1 := Put(s, v, Confirm(s.vars[v], ok));
        SetStateKeeps(s1.(submitted := s1.submitted + {v}), s.master, READY);
    }
  }

  lemma {:induction false} RunKeeps(s: System, events: seq<Event>)
    requires Valid(s) && AllInv(s)
    ensures AllInv(Run(s, events))
    ensures AllHealthy(s) && (forall e | e in events :: e.Finish? ==> e.ok) ==> AllHealthy(Run(s, events))
    decreases |events|
  {
    hide VarInv, HealthyInv, Step;
    if events != [] {
      StepKeeps(s, events[0]);
      RunKeeps(Step(s, events[0]), events[1..]);
    }
  }

  // ---------------------------------------------------------------- the ready barrier

  lemma {:induction false} AllOfThem(members: set<nat>, n: nat)
    requires forall v | v in members :: v < n
    ensures |members| <= n && (|members| == n ==> forall v: nat | v < n :: v in members)
    decreases n
  {
    if n > 0 {
      var rest := members - {n - 1};
      AllOfThem(rest, n - 1);
      if n - 1 in members {
        assert members == rest + {n - 1};
      } else {
        assert members == rest;
      }
    } else {
      assert members == {};
    }
  }

  /** The event makes `v` one of those that have submitted. */
  predicate Submits(s: System, e: Event, v: nat)
  {
    Possible(s, e) && if v == s.master then e == Request(v, READY) else e == Finish(v, true)
  }

  predicate EverSubmits(s: System, events: seq<Event>, v: nat)
    requires Valid(s)
    decreases |events|
  {
    events != [] && (Submits(s, events[0], v) || EverSubmits(Step(s, events[0]), events[1..], v))
  }

  lemma SubmittedStep(s: System, e: Event, v: nat)
    requires Valid(s) && (Full(s) ==> s.master in s.submitted)
    ensures v in Step(s, e).submitted <==> v in s.submitted || Submits(s, e, v)
    ensures Full(Step(s, e)) ==> s.master in Step(s, e).submitted
  {
    AllOfThem(Step(s, e).submitted, |s.vars|);
    if Possible(s, e) && e.Finish? && e.ok && e.v != s.master {
      AllOfThem(s.submitted + {e.v}, |s.vars|);
    }
  }

  lemma {:induction false} SubmittedRun(s: System, events: seq<Event>, v: nat)
    requires Valid(s) && (Full(s) ==> s.master in s.submitted)
    ensures v in Run(s, events).submitted <==> v in s.submitted || EverSubmits(s, events, v)
    ensures Full(Run(s, events)) ==> s.master in Run(s, events).submitted
    decreases |events|
  {
    hide Step, Submits;
    if events != [] {
      SubmittedStep(s, events[0], v);
      SubmittedRun(Step(s, events[0]), events[1..], v);
    }
  }

  lemma FullStays(s: System, e: Event)
    requires Valid(s) && Full(s)
    ensures Full(Step(s, e))
  {
    AllOfThem(s.submitted, |s.vars|);
    if Possible(s, e) {
      assert e.v in s.submitted && s.master in s.submitted;
      assert s.submitted + {e.v} == s.submitted && s.submitted + {s.master} == s.submitted;
    }
  }

  // ---------------------------------------------------------------- what is asked of a variable

  /** The states requested of a variable. */
  function Requests(events: seq<Event>, v: nat): seq<string>
  {
    if events == [] then []
    else
      var last := events[|events| - 1];
      Requests(events[..|events| - 1], v) + if last.Request? && last.v == v then [last.state] else []
  }

  /** Every variable has submitted. */
  predicate AllSubmit(n: nat, master: nat, events: seq<Event>)
    requires master < n
  {
    forall v: nat | v < n :: EverSubmits(Initial(n, master), events, v)
  }

  /** A reply other than an error, for a query of a variable other than the master. */
  predicate Succeeds(s: System, e: Event)
  {
    Possible(s, e) && e.Finish? && e.ok && e.v != s.master
  }

  /** What the last event asks of a variable: the state requested. Of the master `ready` is asked only once all have
      submitted, and then again with every success of another. */
  function AskedLast(n: nat, master: nat, events: seq<Event>, v: nat): seq<string>
    requires master < n && events != []
  {
    var front, last := events[..|events| - 1], events[|events| - 1];
    if last.Request? && last.v == v then
      if v == master && last.state == READY && !AllSubmit(n, master, events) then [] else [last.state]
    else if v == master && Succeeds(Run(Initial(n, master), front), last) && AllSubmit(n, master, events) then [READY]
    else []
  }

  /** What is asked of a variable, in order. */
  function Asked(n: nat, master: nat, events: seq<Event>, v: nat): seq<string>
    requires master < n
  {
    if events == [] then [] else Asked(n, master, events[..|events| - 1], v) + AskedLast(n, master, events, v)
  }

  /** The values without those that repeat the one before. */
  function Changes(values: seq<string>): seq<string>
  {
    if values == [] then []
    else
      var front, last := values[..|values| - 1], values[|values| - 1];
      Changes(front) + if last == Latest(front) then [] else [last]
  }

  lemma NoneSubsequence()
    ensures Subsequence([], [])
  {
  }

  lemma {:induction false} ChangesOf(values: seq<string>)
    ensures Latest(Changes(values)) == Latest(values) && Subsequence(Changes(values), values)
  {
    hide Subsequence;
    if values == [] {
      NoneSubsequence();
    } else {
      var front, last := values[..|values| - 1], values[|values| - 1];
      ChangesOf(front);
      assert values == front + [last] && Changes(front) + [] == Changes(front);
      if last == Latest(front) {
        SubsequenceGrows(Changes(front), front, last);
      } else {
        SubsequenceBoth(Changes(front), front, last);
      }
    }
  }

  lemma SubsequenceBoth(s: seq<string>, t: seq<string>, x: string)
    requires Subsequence(s, t)
    ensures Subsequence(s + [x], t + [x])
  {
    assert (s + [x])[..|s|] == s && (t + [x])[..|t|] == t;
  }

  lemma ChangesMore(values: seq<string>, more: seq<string>)
    requires |more| <= 1
    ensures Changes(values + more) == Changes(values) + if more == [] || more[0] == Latest(values) then [] else more
  {
    if more == [] {
      assert values + more == values && Changes(values) + [] == Changes(values);
    } else {
      assert (values + more)[..|values|] == values && [more[0]] == more;
    }
  }

  lemma {:induction false} SubsequenceOf(a: seq<string>, b: seq<string>, c: seq<string>)
    requires Subsequence(a, b) && Subsequence(b, c)
    ensures Subsequence(a, c)
    decreases |c|
  {
    if a != [] {
      var c' := c[..|c| - 1];
      if b[|b| - 1] == c[|c| - 1] {
        if a[|a| - 1] == b[|b| - 1] {
          SubsequenceOf(a[..|a| - 1], b[..|b| - 1], c');
        } else {
          SubsequenceOf(a, b[..|b| - 1], c');
        }
      } else {
        SubsequenceOf(a, b, c');
        if a[|a| - 1] == c[|c| - 1] {
          SubsequenceInit(a, c');
        }
      }
    }
  }

  lemma {:induction false} RunSnoc(s: System, events: seq<Event>, e: Event)
    requires Valid(s)
    ensures Run(s, events + [e]) == Step(Run(s, events), e)
    decreases |events|
  {
    hide Step;
    if events == [] {
      assert (events + [e])[1..] == [];
    } else {
      assert (events + [e])[1..] == events[1..] + [e];
      RunSnoc(Step(s, events[0]), events[1..], e);
    }
  }

  lemma RunLast(s: System, events: seq<Event>)
    requires Valid(s) && events != []
    ensures Run(s, events) == Step(Run(s, events[..|events| - 1]), events[|events| - 1])
  {
    hide Run, Step;
    FrontAndLast(events);
    RunSnoc(s, events[..|events| - 1], events[|events| - 1]);
  }

  lemma FrontAndLast(events: seq<Event>)
    requires events != []
    ensures events == events[..|events| - 1] + [events[|events| - 1]]
  {
  }

  lemma SubmitIsFull(n: nat, master: nat, events: seq<Event>)
    requires master < n
    ensures AllSubmit(n, master, events) <==> Full(Run(Initial(n, master), events))
  {
    hide Run, EverSubmits;
    var s := Run(Initial(n, master), events);
    forall v: nat
      ensures v in s.submitted <==> v < n && EverSubmits(Initial(n, master), events, v)
    {
      if v < n {
        SubmittedRun(Initial(n, master), events, v);
      }
    }
    AllOfThem(s.submitted, n);
    if AllSubmit(n, master, events) {
      AllSubmitted(s.submitted, n);
    }
  }

  /** One step asks of a variable what `Asked` says, and the variable takes it in unless it repeats its pending value. */
  lemma StepAccepts(s: System, e: Event, v: nat)
    requires Valid(s) && v < |s.vars|
    ensures var asked := if e.Request? && e.v == v then if v == s.master && e.state == READY && !Full(Step(s, e)) then [] else [e.state]
                         else if v == s.master && Succeeds(s, e) && Full(Step(s, e)) then [READY] else [];
            var more := if asked == [] || asked[0] == s.vars[v].pending then [] else asked;
            Step(s, e).vars[v].accepted == s.vars[v].accepted + more
  {
    assert s.vars[v].accepted + [] == s.vars[v].accepted;
    if Succeeds(s, e) && |s.submitted + {e.v}| == |s.vars| {
      AllOfThem(s.submitted + {e.v}, |s.vars|);
      assert s.submitted + {e.v} + {s.master} == s.submitted + {e.v};
    }
  }

  lemma {:induction false} AcceptedIsAsked(n: nat, master: nat, events: seq<Event>, v: nat)
    requires master < n && v < n
    ensures Run(Initial(n, master), events).vars[v].accepted == Changes(Asked(n, master, events, v))
  {
    hide Run, Step, AllSubmit, Changes;
    if events == [] {
      AskedNothing(n, master, v);
    } else {
      var front, last := events[..|events| - 1], events[|events| - 1];
      AcceptedIsAsked(n, master, front, v);
      var s := Run(Initial(n, master), front);
      StartInv(n, master);
      RunKeeps(Initial(n, master), front);
      RunLast(Initial(n, master), events);
      SubmitIsFull(n, master, events);
      StepAccepts(s, last, v);
      ChangesOf(Asked(n, master, front, v));
      ChangesMore(Asked(n, master, front, v), AskedLast(n, master, events, v));
    }
  }

  lemma StartInv(n: nat, master: nat)
    requires master < n
    ensures AllInv(Initial(n, master)) && AllHealthy(Initial(n, master))
  {
  }

  lemma AskedNothing(n: nat, master: nat, v: nat)
    requires master < n && v < n
    ensures Run(Initial(n, master), []).vars[v].accepted == Changes(Asked(n, master, [], v))
  {
  }

  /** Of any variable but the master, what is asked is what is requested. */
  lemma {:induction false} AskedIsRequested(n: nat, master: nat, events: seq<Event>, v: nat)
    requires master < n && v != master
    ensures Asked(n, master, events, v) == Requests(events, v)
  {
    hide AllSubmit, Run;
    if events != [] {
      AskedIsRequested(n, master, events[..|events| - 1], v);
    }
  }

  function WithoutReady(values: seq<string>): seq<string>
  {
    if values == [] then []
    else WithoutReady(values[..|values| - 1]) + if values[|values| - 1] == READY then [] else [values[|values| - 1]]
  }

  lemma WithoutReadyMore(values: seq<string>, more: seq<string>)
    requires |more| <= 1
    ensures WithoutReady(values + more) == WithoutReady(values) + if more == [] || more[0] == READY then [] else more
  {
    if more == [] {
      assert values + more == values && WithoutReady(values) + [] == WithoutReady(values);
    } else {
      assert (values + more)[..|values|] == values && [more[0]] == more;
    }
  }

  /** Of the master everything requested is asked but `ready`, as long as not all have submitted. */
  lemma {:induction false} AskedOfMaster(n: nat, master: nat, events: seq<Event>)
    requires master < n && !AllSubmit(n, master, events)
    ensures Asked(n, master, events, master) == WithoutReady(Requests(events, master))
  {
    hide AllSubmit, Run, Step, WithoutReady, Full;
    if events == [] {
      WithoutReadyMore([], []);
      assert WithoutReady([]) == [] by { NoneWithoutReady(); }
    } else {
      var front, last := events[..|events| - 1], events[|events| - 1];
      SubmitIsFull(n, master, front);
      SubmitIsFull(n, master, events);
      RunLast(Initial(n, master), events);
      if Full(Run(Initial(n, master), front)) {
        FullStays(Run(Initial(n, master), front), last);
      }
      AskedOfMaster(n, master, front);
      var more := if last.Request? && last.v == master then [last.state] else [];
      WithoutReadyMore(Requests(front, master), more);
    }
  }

  lemma NoneWithoutReady()
    ensures WithoutReady([]) == []
  {
  }

  // ---------------------------------------------------------------- publication

  /** With successful replies: the values a variable sends are a subsequence of those asked of it, no two in a row are equal,
      and whenever none is under way the device controller has the latest. */
  lemma Publication(n: nat, master: nat, events: seq<Event>, v: nat)
    requires master < n && v < n && forall e | e in events :: e.Finish? ==> e.ok
    ensures var x, asked := Run(Initial(n, master), events).vars[v], Asked(n, master, events, v);
            && Subsequence(x.sent, asked) && NoneTwice([UNKNOWN] + x.sent)
            && (!x.inFlight ==> x.current == Latest(asked) == Latest(x.sent))
            && (v != master ==> asked == Requests(events, v))
  {
    hide Run, Changes, Subsequence, Latest, Asked, Requests, NoneTwice;
    StartInv(n, master);
    RunKeeps(Initial(n, master), events);
    AcceptedIsAsked(n, master, events, v);
    ChangesOf(Asked(n, master, events, v));
    var x := Run(Initial(n, master), events).vars[v];
    SubsequenceOf(x.sent, x.accepted, Asked(n, master, events, v));
    if v != master {
      AskedIsRequested(n, master, events, v);
    }
  }

  /** With any replies: the values sent are a subsequence of those asked, and whenever none is under way and the last reply
      was a success, the device controller has the latest. */
  lemma RecoversAfterSuccess(n: nat, master: nat, events: seq<Event>, v: nat)
    requires master < n && v < n
    ensures var x, asked := Run(Initial(n, master), events).vars[v], Asked(n, master, events, v);
            && Subsequence(x.sent, asked)
            && (!x.inFlight && x.healthy ==> x.current == Latest(asked))
            && (v != master ==> asked == Requests(events, v))
  {
    hide Run, Changes, Subsequence, Latest, Asked, Requests, NoneTwice;
    StartInv(n, master);
    RunKeeps(Initial(n, master), events);
    AcceptedIsAsked(n, master, events, v);
    ChangesOf(Asked(n, master, events, v));
    var x := Run(Initial(n, master), events).vars[v];
    SubsequenceOf(x.sent, x.accepted, Asked(n, master, events, v));
    if v != master {
      AskedIsRequested(n, master, events, v);
    }
  }

  /** The replies to the queries of a variable over some events: whether each was a success. */
  function Outcomes(s: System, events: seq<Event>, v: nat): seq<bool>
    requires Valid(s)
  {
    if events == [] then []
    else
      var front, last := events[..|events| - 1], events[|events| - 1];
      Outcomes(s, front, v) + if last.Finish? && last.v == v && Possible(Run(s, front), last) then [last.ok] else []
  }

  /** What has become of a request for `state`, made when `before` was confirmed, after the replies `outcomes`. */
  predicate Since(x: Var, before: string, state: string, outcomes: seq<bool>)
  {
    && x.pending == state
    && (if true !in outcomes then x.current == before && (outcomes != [] ==> !x.inFlight)
        else if x.inFlight then x.query == state != x.current
        else (x.current == state <==> outcomes[|outcomes| - 1]))
  }

  lemma SinceStep(s: System, e: Event, v: nat, before: string, state: string, outcomes: seq<bool>)
    requires Valid(s) && v < |s.vars| && v != s.master && !(e.Request? && e.v == v)
    requires Since(s.vars[v], before, state, outcomes)
    ensures var more := if e.Finish? && e.v == v && Possible(s, e) then [e.ok] else [];
            Since(Step(s, e).vars[v], before, state, outcomes + more)
  {
    hide Full;
    assert outcomes + [] == outcomes;
    if e.Finish? && e.v == v && Possible(s, e) {
      assert true in outcomes + [e.ok] <==> true in outcomes || e.ok;
    }
  }

  lemma {:induction false} SinceRun(s: System, rest: seq<Event>, v: nat, before: string, state: string)
    requires Valid(s) && v < |s.vars| && v != s.master && Since(s.vars[v], before, state, [])
    requires forall e | e in rest :: !(e.Request? && e.v == v)
    ensures Since(Run(s, rest).vars[v], before, state, Outcomes(s, rest, v))
  {
    hide Step, Since, Possible;
    if rest == [] {
      RunNothing(s);
    } else {
      var front, last := rest[..|rest| - 1], rest[|rest| - 1];
      assert last in rest && forall e | e in front :: e in rest;
      SinceRun(s, front, v, before, state);
      RunLast(s, rest);
      SinceStep(Run(s, front), last, v, before, state, Outcomes(s, front, v));
    }
  }

  lemma RunNothing(s: System)
    requires Valid(s)
    ensures Run(s, []) == s
  {
  }

  /** What becomes of a request, whatever happened before and whatever follows but a further request: once no query is under
      way it is confirmed exactly if the last reply since was a success, or none was and it had been confirmed already. */
  lemma ConfirmedIff(n: nat, master: nat, events: seq<Event>, v: nat, state: string, rest: seq<Event>)
    requires master < n && v < n && v != master && forall e | e in rest :: !(e.Request? && e.v == v)
    ensures var before := Run(Initial(n, master), events);
            var asked := Step(before, Request(v, state));
            var x, outcomes := Run(asked, rest).vars[v], Outcomes(asked, rest, v);
            !x.inFlight ==>
              (x.current == state <==>
                 (outcomes != [] && outcomes[|outcomes| - 1]) || (true !in outcomes && before.vars[v].current == state))
  {
    hide Run;
    var before := Run(Initial(n, master), events);
    SinceRun(Step(before, Request(v, state)), rest, v, before.vars[v].current, state);
  }

  /** Two ways to lose a request for good: repeated after a failure it is swallowed, and waiting behind a query that fails it
      is dropped. Nothing is under way afterwards that could still confirm it. */
  lemma LostRequests(n: nat, master: nat, v: nat, a: string, b: string)
    requires master < n && v < n && v != master && a != UNKNOWN && b != UNKNOWN && a != b
    ensures var x := Run(Initial(n, master), [Request(v, a), Finish(v, false), Request(v, a)]).vars[v];
            !x.inFlight && x.sent == [a] && x.pending == a && x.current == UNKNOWN
    ensures var x := Run(Initial(n, master), [Request(v, a), Request(v, b), Finish(v, false)]).vars[v];
            !x.inFlight && x.sent == [a] && x.pending == b && x.current == UNKNOWN
  {
    hide Run;
    RunThree(Initial(n, master), Request(v, a), Finish(v, false), Request(v, a));
    RunThree(Initial(n, master), Request(v, a), Request(v, b), Finish(v, false));
  }

  lemma RunThree(s: System, e1: Event, e2: Event, e3: Event)
    requires Valid(s)
    ensures Run(s, [e1, e2, e3]) == Step(Step(Step(s, e1), e2), e3)
  {
    hide Step;
    RunNothing(s);
    RunSnoc(s, [], e1);
    RunSnoc(s, [e1], e2);
    RunSnoc(s, [e1, e2], e3);
    assert [] + [e1] == [e1] && [e1] + [e2] == [e1, e2] && [e1, e2] + [e3] == [e1, e2, e3];
  }

  /** Which requests the next success brings through, whatever happened before. Made at rest: all but the latest requested,
      if that was not confirmed. Made while a query is under way, whose reply comes first: all if that reply is a success;
      otherwise none but the value confirmed. */
  lemma GetsThroughIff(n: nat, master: nat, events: seq<Event>, v: nat, state: string, ok: bool)
    requires master < n && v < n && v != master
    ensures var s := Run(Initial(n, master), events);
            var asked := Step(s, Request(v, state));
            if s.vars[v].inFlight
            then Step(Step(asked, Finish(v, ok)), Finish(v, true)).vars[v].current == state
                 <==> ok || s.vars[v].current == state
            else Step(asked, Finish(v, true)).vars[v].current == state
                 <==> state != Latest(Requests(events, v)) || s.vars[v].current == state
  {
    hide Run, Changes, Subsequence, Latest, Asked, Requests, NoneTwice;
    StartInv(n, master);
    RunKeeps(Initial(n, master), events);
    AcceptedIsAsked(n, master, events, v);
    ChangesOf(Asked(n, master, events, v));
    AskedIsRequested(n, master, events, v);
    var s := Run(Initial(n, master), events);
    if s.vars[v].inFlight {
      RequestBehind(s, v, state, ok);
    } else {
      RequestConfirmed(s, v, state);
    }
  }

  lemma RequestBehind(s: System, v: nat, state: string, ok: bool)
    requires Valid(s) && v < |s.vars| && v != s.master && s.vars[v].inFlight
    ensures Step(Step(Step(s, Request(v, state)), Finish(v, ok)), Finish(v, true)).vars[v].current == state
            <==> ok || s.vars[v].current == state
  {
    hide Full;
  }

  lemma RequestConfirmed(s: System, v: nat, state: string)
    requires Valid(s) && v < |s.vars| && v != s.master && !s.vars[v].inFlight
    ensures var x := Step(Step(s, Request(v, state)), Finish(v, true)).vars[v];
            x.current == if state == s.vars[v].pending then s.vars[v].current else state
  {
  }

  lemma StepSent(s: System, e: Event, v: nat)
    requires Valid(s) && v < |s.vars|
    ensures var x, x' := s.vars[v], Step(s, e).vars[v];
            var reply := if e.Finish? && e.v == v && Possible(s, e) then 1 else 0;
            |x'.sent| - (if x'.inFlight then 1 else 0) == |x.sent| - (if x.inFlight then 1 else 0) + reply
  {
    hide Full;
  }

  /** Of the values a variable has sent, all but at most one have been replied to. */
  lemma {:induction false} OneAtATime(n: nat, master: nat, events: seq<Event>, v: nat)
    requires master < n && v < n
    ensures var x := Run(Initial(n, master), events).vars[v];
            |x.sent| == |Outcomes(Initial(n, master), events, v)| + if x.inFlight then 1 else 0
  {
    hide Run, Step;
    if events == [] {
      SentNothing(n, master, v);
    } else {
      var front, last := events[..|events| - 1], events[|events| - 1];
      OneAtATime(n, master, front, v);
      RunLast(Initial(n, master), events);
      StepSent(Run(Initial(n, master), front), last, v);
    }
  }

  lemma SentNothing(n: nat, master: nat, v: nat)
    requires master < n && v < n
    ensures var x := Run(Initial(n, master), []).vars[v]; x.sent == [] && !x.inFlight
  {
  }

  // ---------------------------------------------------------------- the master is ready

  function Count(values: seq<string>, x: string): nat
  {
    if values == [] then 0 else Count(values[..|values| - 1], x) + if values[|values| - 1] == x then 1 else 0
  }

  lemma {:induction false} CountOfSubsequence(s: seq<string>, t: seq<string>, x: string)
    requires Subsequence(s, t)
    ensures Count(s, x) <= Count(t, x)
    decreases |t|
  {
    if s != [] {
      if s[|s| - 1] == t[|t| - 1] {
        CountOfSubsequence(s[..|s| - 1], t[..|t| - 1], x);
      } else {
        CountOfSubsequence(s, t[..|t| - 1], x);
      }
    }
  }

  lemma {:induction false} CountedIn(values: seq<string>, x: string)
    ensures Count(values, x) > 0 <==> x in values
  {
    if values != [] {
      CountedIn(values[..|values| - 1], x);
      assert values == values[..|values| - 1] + [values[|values| - 1]];
    }
  }

  lemma CountSnoc(values: seq<string>, x: string, y: string)
    ensures Count(values + [y], x) == Count(values, x) + if x == y then 1 else 0
  {
    assert (values + [y])[..|values|] == values;
  }

  /** The master never accepts `ready` before everybody has submitted. */
  predicate HeldBack(s: System)
    requires Valid(s)
  {
    !Full(s) ==> Count(s.vars[s.master].accepted, READY) == 0
  }

  /** Once everybody has submitted, `ready` is the master's latest value and was accepted once. */
  predicate LetThrough(s: System)
    requires Valid(s)
  {
    Full(s) ==> var m := s.vars[s.master]; Latest(m.accepted) == READY && Count(m.accepted, READY) == 1
  }

  /** Once everybody has submitted, the master is asked for nothing but `ready`. */
  predicate OnlyReady(s: System, e: Event)
  {
    e.Request? && e.v == s.master && Full(s) ==> e.state == READY
  }

  lemma AcceptCounts(v: Var, state: string)
    requires VarInv(v)
    ensures var a := Accept(v, state).accepted;
            && Latest(a) == state
            && Count(a, READY) == Count(v.accepted, READY) + if state == READY && Latest(v.accepted) != READY then 1 else 0
  {
    CountSnoc(v.accepted, READY, state);
  }

  /** Asked to be ready when all have submitted, the master accepts it, unless it has already. */
  lemma ReadyLetThrough(s: System)
    requires Valid(s) && VarInv(s.vars[s.master]) && Full(s)
    requires Count(s.vars[s.master].accepted, READY) == 0 || LetThrough(s)
    ensures Full(SetState(s, s.master, READY)) && LetThrough(SetState(s, s.master, READY))
  {
    hide VarInv;
    var v := s.vars[s.master];
    AllOfThem(s.submitted, |s.vars|);
    assert s.submitted + {s.master} == s.submitted;
    AcceptCounts(v, READY);
    CountedIn(v.accepted, READY);
  }

  lemma StepBarrier(s: System, e: Event)
    requires Valid(s) && AllInv(s) && HeldBack(s)
    ensures HeldBack(Step(s, e))
    ensures LetThrough(s) && OnlyReady(s, e) ==> LetThrough(Step(s, e))
  {
    hide VarInv, Latest;
    if Full(s) {
      FullStays(s, e);
    }
    if Possible(s, e) {
      var m := s.vars[s.master];
      match e
      case Request(v, state) =>
        if v == s.master {
          if state == READY {
            var s1 := s.(submitted := s.submitted + {v});
            if Full(s1) && (Count(m.accepted, READY) == 0 || LetThrough(s1)) {
              ReadyLetThrough(s1);
              assert s1.submitted + {v} == s1.submitted;
            }
          } else {
            AcceptCounts(m, state);
          }
        }
      case Finish(v, ok) =>
        var s2 := Put(s, v, Confirm(s.vars[v], ok)).(submitted := s.submitted + {v});
        ConfirmKeeps(s.vars[v], ok);
        if ok && v != s.master && Full(s2) && (Count(m.accepted, READY) == 0 || LetThrough(s2)) {
          ReadyLetThrough(s2);
        }
    }
  }

  predicate AllOnlyReady(s: System, events: seq<Event>)
    requires Valid(s)
    decreases |events|
  {
    events != [] ==> OnlyReady(s, events[0]) && AllOnlyReady(Step(s, events[0]), events[1..])
  }

  lemma {:induction false} RunBarrier(s: System, events: seq<Event>)
    requires Valid(s) && AllInv(s) && HeldBack(s)
    ensures HeldBack(Run(s, events)) && AllInv(Run(s, events))
    ensures LetThrough(s) && AllOnlyReady(s, events) ==> LetThrough(Run(s, events))
    decreases |events|
  {
    hide VarInv, Step, LetThrough, HeldBack;
    if events != [] {
      StepKeeps(s, events[0]);
      StepBarrier(s, events[0]);
      RunBarrier(Step(s, events[0]), events[1..]);
    }
  }

  /** The master never tells `ready` before every variable, itself included, has submitted: the others by a success, the
      master by being asked. */
  lemma ReadyBarrier(n: nat, master: nat, events: seq<Event>, v: nat)
    requires master < n && v < n
    requires "ready" in Run(Initial(n, master), events).vars[master].sent
    ensures EverSubmits(Initial(n, master), events, v)
  {
    hide Run;
    StartInv(n, master);
    var s := Run(Initial(n, master), events);
    RunBarrier(Initial(n, master), events);
    CountedIn(s.vars[master].sent, READY);
    CountOfSubsequence(s.vars[master].sent, s.vars[master].accepted, READY);
    AllOfThem(s.submitted, n);
    SubmittedRun(Initial(n, master), events, v);
  }

  /** In every order of events: when all have submitted and the master is asked for nothing else from then on, `ready` is its
      latest value; it was sent at most once, and exactly once when the last reply was a success and none is under way. */
  lemma ReadyExactlyOnce(n: nat, master: nat, events: seq<Event>)
    requires master < n && AllOnlyReady(Initial(n, master), events)
    requires forall v: nat | v < n :: EverSubmits(Initial(n, master), events, v)
    ensures var m := Run(Initial(n, master), events).vars[master];
            && m.pending == "ready" && Count(m.sent, "ready") <= 1
            && (!m.inFlight && m.healthy ==> m.current == "ready" && Count(m.sent, "ready") == 1)
  {
    var s := Run(Initial(n, master), events);
    RunBarrier(Initial(n, master), events);
    forall v: nat | v < n
      ensures v in s.submitted
    {
      SubmittedRun(Initial(n, master), events, v);
    }
    AllSubmitted(s.submitted, n);
    var m := s.vars[master];
    CountOfSubsequence(m.sent, m.accepted, READY);
    CountedIn(m.sent, READY);
  }

  lemma {:induction false} AllSubmitted(members: set<nat>, n: nat)
    requires forall v: nat :: v in members <==> v < n
    ensures |members| == n
    decreases n
  {
    if n > 0 {
      AllSubmitted(members - {n - 1}, n - 1);
    } else {
      assert members == {};
    }
  }

  /** Without that proviso it is not the master's last word that counts: once all have submitted, every success of another
      variable asks the master to be ready again. It is sent then and there exactly if the master was asked for something
      else last and no query of its own is under way. */
  lemma EverySuccessAsksAgain(n: nat, master: nat, events: seq<Event>, v: nat)
    requires master < n && v < n && v != master && AllSubmit(n, master, events)
    requires Run(Initial(n, master), events).vars[v].inFlight
    ensures var m := Run(Initial(n, master), events).vars[master];
            var m' := Run(Initial(n, master), events + [Finish(v, true)]).vars[master];
            && m'.pending == "ready"
            && m'.sent == m.sent + (if m.pending != "ready" && !m.inFlight then ["ready"] else [])
  {
    hide Run, AllSubmit;
    var s := Run(Initial(n, master), events);
    SubmitIsFull(n, master, events);
    RunSnoc(Initial(n, master), events, Finish(v, true));
    AllOfThem(s.submitted, |s.vars|);
    assert s.submitted + {v} == s.submitted && s.submitted + {s.master} == s.submitted;
    assert s.vars[master].sent + [] == s.vars[master].sent;
  }

  /** What is told again after a reset: the values confirmed last of all that have submitted and of the master, which comes
      last; in between any order. */
  predicate Replay(s: System, ids: seq<nat>, values: seq<string>)
    requires Valid(s)
  {
    && |ids| == |values| > 0 && ids[|ids| - 1] == s.master
    && (forall v | v in ids :: v in s.submitted || v == s.master) && (forall v | v in s.submitted :: v in ids)
    && (forall i, j | 0 <= i < j < |ids| :: ids[i] != ids[j])
    && forall i | 0 <= i < |ids| :: ids[i] < |s.vars| && values[i] == s.vars[ids[i]].current
  }

  /** The master is told last, and before it exactly the variables that had a success; of each that is at rest after a
      success the value is the latest asked of it. */
  lemma ReplayIsLatest(n: nat, master: nat, events: seq<Event>, ids: seq<nat>, values: seq<string>)
    requires master < n && Replay(Run(Initial(n, master), events), ids, values)
    ensures ids[|ids| - 1] == master && forall i | 0 <= i < |ids| - 1 :: ids[i] != master
    ensures forall v: nat | v < n && v != master :: v in ids <==> EverSubmits(Initial(n, master), events, v)
    ensures forall i | 0 <= i < |ids| ::
              var x := Run(Initial(n, master), events).vars[ids[i]];
              !x.inFlight && x.healthy ==> values[i] == Latest(Asked(n, master, events, ids[i]))
  {
    hide Run, EverSubmits, Latest, Asked;
    forall v: nat | v < n && v != master
      ensures v in ids <==> EverSubmits(Initial(n, master), events, v)
    {
      SubmittedRun(Initial(n, master), events, v);
    }
    forall i | 0 <= i < |ids|
      ensures var x := Run(Initial(n, master), events).vars[ids[i]];
              !x.inFlight && x.healthy ==> values[i] == Latest(Asked(n, master, events, ids[i]))
    {
      RecoversAfterSuccess(n, master, events, ids[i]);
    }
  }
}
