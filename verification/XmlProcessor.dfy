/** The request processor as an object, proved against `Scheduler`. */
module XmlProcessors {
  import opened Scheduler

  class XmlProcessor {
    var reqCounter: int
    var prioQueue: seq<Request>
    var highPrioQueue: seq<Request>
    var guiQueue: seq<Request>
    var currentRequest: seq<Request>           // at most one
    var currentHighPrioRequest: seq<Request>   // at most one
    var currentGuiRequest: seq<Request>        // at most one
    var alive: bool                            // false after an exception nobody catches
    ghost var finished: seq<Request>
    ghost var highPrioFinished: seq<Request>
    ghost var guiFinished: seq<Request>
    ghost var accepted: seq<Request>

    ghost function View(): Processor
      reads this
    {
      Processor(reqCounter, Lane(prioQueue, currentRequest, finished), Lane(highPrioQueue, currentHighPrioRequest, highPrioFinished),
                Lane(guiQueue, currentGuiRequest, guiFinished), accepted, alive)
    }

    constructor ()
      ensures View() == INITIAL
    {
      reqCounter, alive := 0, true;
      prioQueue, highPrioQueue, guiQueue := [], [], [];
      currentRequest, currentHighPrioRequest, currentGuiRequest := [], [], [];
      finished, highPrioFinished, guiFinished, accepted := [], [], [], [];
    }

    /** A request comes in over an interface. One that does not parse is refused after it took its time stamp. */
    method ParseStream(parses: bool, prio: int, interfacePrio: int, functionPrio: int, isGuiIO: bool, isIpc: bool)
      requires alive
      modifies this
      ensures View() == Step(old(View()), if parses then Arrive(prio + interfacePrio + functionPrio, isGuiIO, isIpc) else Malformed)
    {
      hide StartTop;
      var ts := reqCounter;
      reqCounter := reqCounter + 1;
      if !parses {
        return;
      }
      var r := Request(ts, prio + interfacePrio + functionPrio, isGuiIO, isIpc);
      if (currentRequest != [] || currentHighPrioRequest != []) && r.guiIO {
        if guiQueue != [] {
          alive := false;
          return;
        }
        guiQueue, accepted := guiQueue + [r], accepted + [r];
        if currentGuiRequest == [] {
          ExecuteNextGuiRequest();
        }
        return;
      }
      if currentRequest != [] && r.ipc {
        highPrioQueue, accepted := highPrioQueue + [r], accepted + [r];
        if currentHighPrioRequest == [] {
          ExecuteNextHighPrioRequest();
        }
        return;
      }
      prioQueue, accepted := prioQueue + [r], accepted + [r];
      if currentRequest == [] {
        ExecuteTopRequest();
      }
    }

    method ExecuteTopRequest()
      modifies this`prioQueue, this`currentRequest
      ensures Lane(prioQueue, currentRequest, finished) == StartTop(old(Lane(prioQueue, currentRequest, finished)))
    {
      if prioQueue == [] {
        return;
      }
      var k := Top(prioQueue);
      currentRequest := [prioQueue[k]];
      prioQueue := Popped(prioQueue, k);
    }

    method ExecuteNextHighPrioRequest()
      modifies this`highPrioQueue, this`currentHighPrioRequest
      ensures Lane(highPrioQueue, currentHighPrioRequest, highPrioFinished)
           == StartTop(old(Lane(highPrioQueue, currentHighPrioRequest, highPrioFinished)))
    {
      if highPrioQueue == [] {
        return;
      }
      var k := Top(highPrioQueue);
      currentHighPrioRequest := [highPrioQueue[k]];
      highPrioQueue := Popped(highPrioQueue, k);
    }

    method ExecuteNextGuiRequest()
      modifies this`guiQueue, this`currentGuiRequest
      ensures Lane(guiQueue, currentGuiRequest, guiFinished) == StartTop(old(Lane(guiQueue, currentGuiRequest, guiFinished)))
    {
      if guiQueue == [] {
        return;
      }
      var k := Top(guiQueue);
      currentGuiRequest := [guiQueue[k]];
      guiQueue := Popped(guiQueue, k);
    }

    method RequestFinished()
      requires alive && currentRequest != []
      modifies this
      ensures View() == Step(old(View()), MainFinished)
    {
      finished := finished + currentRequest;
      currentRequest := [];
      if |prioQueue| > 0 {
        ExecuteTopRequest();
      }
    }

    method HighPrioRequestFinished()
      requires alive && currentHighPrioRequest != []
      modifies this
      ensures View() == Step(old(View()), HighFinished)
    {
      highPrioFinished := highPrioFinished + currentHighPrioRequest;
      currentHighPrioRequest := [];
      if |highPrioQueue| > 0 {
        ExecuteNextHighPrioRequest();
      }
    }

    method GuiRequestFinished()
      requires alive && currentGuiRequest != []
      modifies this
      ensures View() == Step(old(View()), GuiFinished)
    {
      guiFinished := guiFinished + currentGuiRequest;
      currentGuiRequest := [];
      if |guiQueue| > 0 {
        ExecuteNextGuiRequest();
      }
    }
  }
}
