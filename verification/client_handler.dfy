/**
 * The client side of a GIOP connection (TAO_Client_Connection_Handler and
 * its single-threaded and multi-threaded variants in TAO/tao/Connect.cpp):
 * the flags `expecting_response_`, `input_available_` and `calling_thread_`
 * that correlate a two-way call with the reply that later arrives.
 *
 * The two variants are subclasses in the source; here they share one class
 * and their methods carry the prefix `St` or `Mt`. The GIOP sender, the
 * reactor and the ORB core's leader-follower calls are collaborators: what
 * they answer is passed in, and each section run under the leader-follower
 * lock is one atomic step.
 */
module ClientHandler {

  datatype ThreadId = NullThread | Thread(id: nat)

  /** What one reactor `handle_events` call amounts to for this handler. */
  datatype ReactorEvent =
    | Idle            // some other handler's event, or a timeout
    | InputForThis    // the reactor dispatches input to this handler's handle_input
    | EventsFailed    // handle_events returned -1

  /** Why a parked follower woke up. */
  datatype FollowerWake =
    | Delivered(leader: nat)   // the leader thread `leader` ran this handler's handle_input
    | LeaderGone               // leader_available() no longer holds
    | Spurious                 // still no input and still a leader

  /** The leader-follower lock and ORB-core calls made by one method, in order. */
  datatype LfOp = Acquire | Release | SetLeader | UnsetLeaderWakeFollower | RemoveFollower | Signal

  /** The first element of `s` that is not `skip`, or `skip` if there is none. */
  function FirstNot<T(==)>(s: seq<T>, skip: T): T
  {
    if s == [] then skip else if s[0] != skip then s[0] else FirstNot(s[1..], skip)
  }

  /** A wait over `s` ends: some element is not `skip`. */
  predicate Settles<T(==)>(s: seq<T>, skip: T)
  {
    exists k :: 0 <= k < |s| && s[k] != skip
  }

  lemma {:induction false} SettlesStep<T>(s: seq<T>, skip: T)
    requires Settles(s, skip)
    ensures |s| > 0
    ensures s[0] == skip ==> Settles(s[1..], skip)
    ensures FirstNot(s, skip) != skip
  {
    var k :| 0 <= k < |s| && s[k] != skip;
    if s[0] == skip {
      assert s[1..][k - 1] == s[k];
      SettlesStep(s[1..], skip);
    }
  }

  /**
   * `check_unexpected_data`: peek one byte. 0 is a graceful shutdown, -1 an
   * abrupt one, 1 unexpected data; whichever it is, the connection is to be
   * closed, so the answer is -1.
   */
  function CheckUnexpectedData(peek: int): (r: int)
    ensures r == -1
  {
    if peek == 0 || peek == -1 then -1   // peer closed the connection
    else if peek == 1 then -1            // input while no response is expected
    else -1
  }

  class ClientConnectionHandler {
    var expectingResponse: bool
    var inputAvailable: bool
    var callingThread: ThreadId   // multi-threaded variant only
    var suspended: bool           // the reactor has suspended notifications for this handler
    var registered: bool          // registered with the reactor for input
    var socketOpen: bool
    var markedClosed: bool        // the connection recycler was told this handler is closed

    /** The connection-level state that the request/response flag machine leaves alone. */
    function Connection(): (bool, bool, bool)
      reads this
    {
      (registered, socketOpen, markedClosed)
    }

    constructor ()
      ensures !expectingResponse && !inputAvailable && callingThread == NullThread
      ensures !suspended && !registered && socketOpen && !markedClosed
    {
      expectingResponse, inputAvailable, callingThread := false, false, NullThread;
      suspended, registered, socketOpen, markedClosed := false, false, true, false;
    }

    /**
     * `TAO_Client_Connection_Handler::open`. `optionsOk` is whether setting
     * the socket options succeeded (a buffer-size failure with ENOTSUP
     * counts as success); if not, open answers -1 before registering.
     * Otherwise it registers with the reactor for input and answers 0.
     */
    method Open(optionsOk: bool) returns (r: int)
      modifies this
      ensures optionsOk ==> r == 0 && registered
      ensures !optionsOk ==> r == -1 && registered == old(registered)
      ensures expectingResponse == old(expectingResponse) && inputAvailable == old(inputAvailable)
      ensures callingThread == old(callingThread) && suspended == old(suspended)
      ensures socketOpen == old(socketOpen) && markedClosed == old(markedClosed)
    {
      if !optionsOk {
        return -1;
      }
      registered := true;
      r := 0;
    }

    /**
     * `handle_close`: tell the recycler (if there is one), cancel timers and
     * leave the reactor, close the socket. A second call finds the same state.
     */
    method HandleClose(hasRecycler: bool) returns (r: int)
      modifies this
      ensures r == 0
      ensures markedClosed == (old(markedClosed) || hasRecycler)
      ensures !registered && !socketOpen
      ensures expectingResponse == old(expectingResponse) && inputAvailable == old(inputAvailable)
      ensures callingThread == old(callingThread) && suspended == old(suspended)
    {
      if hasRecycler {
        markedClosed := true;
      }
      if registered {
        registered := false;
      }
      socketOpen := false;
      r := 0;
    }

    // ------------------------------------------------------------ single-threaded

    /**
     * `TAO_ST_Client_Connection_Handler::handle_input`: while a response is
     * expected, flag the input and suspend notifications; otherwise the
     * input is unexpected and the answer is -1.
     */
    method StHandleInput(peek: int) returns (r: int)
      modifies this
      ensures old(expectingResponse) ==> r == 0 && inputAvailable && suspended
      ensures !old(expectingResponse) ==> r == -1 && inputAvailable == old(inputAvailable) && suspended == old(suspended)
      ensures expectingResponse == old(expectingResponse) && callingThread == old(callingThread)
      ensures Connection() == old(Connection())
    {
      r := 0;
      if expectingResponse {
        inputAvailable := true;
        suspended := true;
      } else {
        r := CheckUnexpectedData(peek);
      }
    }

    /**
     * `TAO_ST_Client_Connection_Handler::send_request`. A failed send answers
     * -1 before any flag changes; a one-way call answers 0 and changes
     * nothing; a two-way call runs the reactor until this handler's input is
     * flagged or handle_events fails, then resets both flags, resumes the
     * handler and answers 0 either way (`waitFailed` says which it was).
     */
    method StSendRequest(sendOk: bool, isTwoway: bool, events: seq<ReactorEvent>) returns (r: int, waitFailed: bool)
      requires sendOk && isTwoway && !inputAvailable ==> Settles(events, Idle)
      modifies this
      ensures r == if sendOk then 0 else -1
      ensures !sendOk || !isTwoway ==>
        !waitFailed && expectingResponse == old(expectingResponse) && inputAvailable == old(inputAvailable)
        && suspended == old(suspended)
      ensures sendOk && isTwoway ==>
        !expectingResponse && !inputAvailable && !suspended
        && waitFailed == (!old(inputAvailable) && FirstNot(events, Idle) == EventsFailed)
      ensures callingThread == old(callingThread) && Connection() == old(Connection())
    {
      waitFailed := false;
      if !sendOk {
        return -1, false;
      }
      if isTwoway {
        expectingResponse := true;
        var ret := 0;
        var i := 0;
        while ret != -1 && !inputAvailable
          invariant 0 <= i <= |events|
          invariant expectingResponse
          invariant callingThread == old(callingThread) && Connection() == old(Connection())
          invariant old(inputAvailable) ==> i == 0 && ret == 0 && inputAvailable
          invariant !old(inputAvailable) ==>
            FirstNot(events, Idle) ==
              if ret == -1 then EventsFailed else if inputAvailable then InputForThis else FirstNot(events[i..], Idle)
          invariant ret != -1 && !inputAvailable ==> Settles(events[i..], Idle)
          invariant ret == -1 ==> !inputAvailable
          decreases |events| - i
        {
          SettlesStep(events[i..], Idle);
          assert events[i..][1..] == events[i + 1..];
          var e := events[i];
          i := i + 1;
          match e {
            case Idle =>
            case InputForThis =>
              var _ := StHandleInput(1);    // the reactor dispatches to this handler
            case EventsFailed =>
              ret := -1;
          }
        }
        inputAvailable := false;
        suspended := false;                 // resume_handler
        expectingResponse := false;
        waitFailed := ret == -1;
      }
      r := 0;
    }

    // ------------------------------------------------------------ multi-threaded

    /**
     * `TAO_MT_Client_Connection_Handler::handle_input`. With the lock held:
     * unexpected input answers -1; input for the calling thread (the leader
     * waiting for its own reply) is flagged; input for a parked follower
     * removes that follower, suspends the handler, then under the lock again
     * flags the input and signals the follower.
     */
    method MtHandleInput(self: nat, acquireOk: bool, reacquireOk: bool, peek: int) returns (r: int, lf: seq<LfOp>)
      modifies this
      ensures !acquireOk ==>
        r == -1 && lf == [Acquire] && inputAvailable == old(inputAvailable) && suspended == old(suspended)
      ensures acquireOk && !old(expectingResponse) ==>
        r == -1 && lf == [Acquire, Release] && inputAvailable == old(inputAvailable) && suspended == old(suspended)
      ensures acquireOk && old(expectingResponse) && old(callingThread) == Thread(self) ==>
        r == 0 && lf == [Acquire, Release] && inputAvailable && suspended
      ensures acquireOk && old(expectingResponse) && old(callingThread) != Thread(self) ==>
        suspended
        && lf == [Acquire, RemoveFollower, Release, Acquire] + (if reacquireOk then [Signal, Release] else [])
        && (r == 0 <==> reacquireOk) && (r != 0 ==> r == -1)
        && inputAvailable == (reacquireOk || old(inputAvailable))
      ensures expectingResponse == old(expectingResponse) && callingThread == old(callingThread)
      ensures Connection() == old(Connection())
    {
      lf := [Acquire];
      if !acquireOk {
        return -1, lf;
      }
      if !expectingResponse {
        lf := lf + [Release];
        r := CheckUnexpectedData(peek);
        return;
      }
      if callingThread == Thread(self) {
        inputAvailable := true;
        lf := lf + [Release];
        suspended := true;
        return 0, lf;
      }
      lf := lf + [RemoveFollower, Release];
      suspended := true;
      lf := lf + [Acquire];
      if !reacquireOk {
        return -1, lf;
      }
      inputAvailable := true;
      lf := lf + [Signal, Release];
      r := 0;
    }

    /**
     * `TAO_MT_Client_Connection_Handler::send_request`. A one-way call only
     * sends. A two-way call takes the leader-follower lock, sets
     * `expecting_response_` and `calling_thread_`, sends, and then either
     * waits as a follower until its reply is flagged or the leader leaves, or
     * becomes leader and runs the reactor until its own input is flagged.
     * Success resets all three fields; the send and handle_events failures
     * leave `expecting_response_` and `calling_thread_` set, and a failed
     * handle_events never gives up the leadership.
     */
    method MtSendRequest(self: nat, isTwoway: bool, lockOk: bool, sendOk: bool, leaderElsewhere: bool,
                         wakes: seq<FollowerWake>, events: seq<ReactorEvent>, unsetOk: bool)
      returns (r: int, lf: seq<LfOp>, followerWaits: nat)
      requires isTwoway && lockOk && sendOk && leaderElsewhere && !inputAvailable ==> Settles(wakes, Spurious)
      requires isTwoway && lockOk && sendOk ==> Settles(events, Idle)
      modifies this
      ensures !isTwoway ==>
        r == (if sendOk then 0 else -1) && lf == [] && followerWaits == 0
        && expectingResponse == old(expectingResponse) && inputAvailable == old(inputAvailable)
        && callingThread == old(callingThread) && suspended == old(suspended)
      ensures isTwoway && !lockOk ==>
        r == -1 && lf == [Acquire] && followerWaits == 0
        && expectingResponse == old(expectingResponse) && inputAvailable == old(inputAvailable)
        && callingThread == old(callingThread) && suspended == old(suspended)
      ensures isTwoway && lockOk && !sendOk ==>
        r == -1 && lf == [Acquire, Release] && followerWaits == 0
        && expectingResponse && callingThread == Thread(self)
        && inputAvailable == old(inputAvailable) && suspended == old(suspended)
      ensures isTwoway && lockOk && sendOk ==>
        var followed := leaderElsewhere && (old(inputAvailable) || FirstNot(wakes, Spurious).Delivered?);
        var availAsLeader := !leaderElsewhere && old(inputAvailable);
        var waitFails := !availAsLeader && FirstNot(events, Idle) == EventsFailed;
        && (followerWaits > 0 ==> leaderElsewhere && !old(inputAvailable))
        && (followed ==> r == 0 && lf == [Acquire, Release])
        && (!followed ==> lf == [Acquire, SetLeader, Release] + (if waitFails then [] else [UnsetLeaderWakeFollower]))
        && (r == 0 <==> followed || (!waitFails && unsetOk))
        && (r != 0 ==> r == -1)
        && (r == 0 ==> !expectingResponse && !inputAvailable && callingThread == NullThread)
        && (r == -1 ==> expectingResponse && callingThread == Thread(self) && inputAvailable == !waitFails)
        && suspended == (old(suspended) || (!old(inputAvailable) && (followed || (!availAsLeader && !waitFails))))
      ensures Connection() == old(Connection())
    {
      followerWaits := 0;
      lf := [];
      if !isTwoway {
        r := if sendOk then 0 else -1;
        return;
      }
      lf := [Acquire];
      if !lockOk {
        return -1, lf, 0;
      }
      expectingResponse := true;
      callingThread := Thread(self);
      if !sendOk {
        lf := lf + [Release];
        return -1, lf, 0;
      }
      if leaderElsewhere {
        var leaderAvailable := true;
        var j := 0;
        while !inputAvailable && leaderAvailable
          invariant 0 <= j <= |wakes|
          invariant expectingResponse && callingThread == Thread(self) && lf == [Acquire]
          invariant Connection() == old(Connection())
          invariant followerWaits > 0 ==> !old(inputAvailable)
          invariant old(inputAvailable) ==> j == 0 && inputAvailable && suspended == old(suspended)
          invariant !old(inputAvailable) ==>
            (leaderAvailable && !inputAvailable ==> FirstNot(wakes, Spurious) == FirstNot(wakes[j..], Spurious)
                                                    && Settles(wakes[j..], Spurious))
            && (inputAvailable ==> FirstNot(wakes, Spurious).Delivered?)
            && (!leaderAvailable ==> FirstNot(wakes, Spurious) == LeaderGone && !inputAvailable)
            && suspended == (old(suspended) || inputAvailable)
          decreases |wakes| - j
        {
          followerWaits := followerWaits + 1;     // add_follower, then wait on the condition
          SettlesStep(wakes[j..], Spurious);
          assert wakes[j..][1..] == wakes[j + 1..];
          var w := wakes[j];
          j := j + 1;
          match w {
            case Delivered(leader) =>
              var _, _ := MtHandleInput(leader, true, true, 0);
            case LeaderGone =>
              leaderAvailable := false;
            case Spurious =>
          }
        }
        if inputAvailable {
          lf := lf + [Release];
          inputAvailable, expectingResponse, callingThread := false, false, NullThread;
          return 0, lf, followerWaits;
        }
      }
      lf := lf + [SetLeader, Release];
      var ret := 0;
      var i := 0;
      ghost var availAsLeader := inputAvailable;
      ghost var suspendedAsLeader := suspended;
      while ret != -1 && !inputAvailable
        invariant 0 <= i <= |events|
        invariant expectingResponse && callingThread == Thread(self)
        invariant Connection() == old(Connection())
        invariant availAsLeader ==> i == 0 && ret == 0 && inputAvailable && suspended == suspendedAsLeader
        invariant !availAsLeader ==>
          FirstNot(events, Idle) ==
            (if ret == -1 then EventsFailed else if inputAvailable then InputForThis else FirstNot(events[i..], Idle))
          && suspended == (suspendedAsLeader || inputAvailable)
        invariant ret != -1 && !inputAvailable ==> Settles(events[i..], Idle)
        invariant ret == -1 ==> !inputAvailable
        decreases |events| - i
      {
        SettlesStep(events[i..], Idle);
        assert events[i..][1..] == events[i + 1..];
        var e := events[i];
        i := i + 1;
        match e {
          case Idle =>
          case InputForThis =>
            var _, _ := MtHandleInput(self, true, true, 0);   // the leader's own reply
          case EventsFailed =>
            ret := -1;
        }
      }
      if ret == -1 {
        return -1, lf, followerWaits;
      }
      lf := lf + [UnsetLeaderWakeFollower];
      if !unsetOk {
        return -1, lf, followerWaits;
      }
      inputAvailable, expectingResponse, callingThread := false, false, NullThread;
      r := 0;
    }
  }
}
