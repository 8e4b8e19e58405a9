/**
 * TelloCommand: the discrete-command and RC channel on UDP port 8889.
 *
 * Time is an integer clock in milliseconds (the source reads `time.time()`
 * in seconds). The receive thread is replaced by a script of arrivals: the
 * datagrams that reach the port during one `send`, each with the time it
 * becomes readable. The thread handles them in order, so a datagram is in
 * the slot by the first poll that comes no earlier than its own arrival
 * and every earlier one's. The thread writes the slot as soon as it reads a
 * datagram, so `send` clearing the slot erases every datagram read before
 * the command went out; one readable from that very instant lands after
 * the clear.
 */
module TelloCommand {
  import opened Wrappers
  import opened Text
  import opened Channel

  const TIMEOUT: int := 10000        // 10 s to wait for a command response
  const COMM_DELAY: int := 100       // 0.1 s minimum delay between discrete commands
  const RC_DELAY: int := 1           // 0.001 s minimum delay between RC commands
  const POLL_INTERVAL: int := 100    // `time.sleep(0.1)` between looks at the slot

  /**
   * The index of the last look at the slot: the poll loop gives up at the
   * first look whose elapsed time exceeds TIMEOUT (look 101, at 10.1 s).
   */
  const LAST_CHECK: nat := TIMEOUT / POLL_INTERVAL + 1

  // ---------------------------------------------------------------------
  // RC datagrams
  // ---------------------------------------------------------------------

  /** `max(-100, min(100, x))`. */
  function Clamp100(x: int): (r: int)
    ensures -100 <= r <= 100
    ensures -100 <= x <= 100 ==> r == x
    ensures x < -100 ==> r == -100
    ensures x > 100 ==> r == 100
  {
    var upper := if x < 100 then x else 100;
    if -100 > upper then -100 else upper
  }

  lemma Clamp100Idempotent(x: int)
    ensures Clamp100(Clamp100(x)) == Clamp100(x)
  {
  }

  /** `'rc {} {} {} {}'` of the four clamped velocities, in argument order. */
  function RcCommand(lr: int, fb: int, ud: int, yaw: int): (c: string)
    ensures Split(c, ' ') == ["rc", IntToString(Clamp100(lr)), IntToString(Clamp100(fb)), IntToString(Clamp100(ud)), IntToString(Clamp100(yaw))]
  {
    var a, b, c, d := IntToString(Clamp100(lr)), IntToString(Clamp100(fb)), IntToString(Clamp100(ud)), IntToString(Clamp100(yaw));
    RcCommandIsJoin(a, b, c, d);
    SplitJoin(["rc", a, b, c, d], ' ');
    "rc " + a + " " + b + " " + c + " " + d
  }

  /** Reads an RC datagram back into its four values. */
  function ParseRc(s: string): Option<(int, int, int, int)> {
    var parts := Split(s, ' ');
    if |parts| != 5 || parts[0] != "rc" then None
    else match (ParseInt(parts[1]), ParseInt(parts[2]), ParseInt(parts[3]), ParseInt(parts[4]))
      case (Some(a), Some(b), Some(c), Some(d)) => Some((a, b, c, d))
      case _ => None
  }

  /**
   * An RC datagram is exactly "rc" and the four clamped values, in argument
   * order, separated by single spaces; so each value it carries lies in
   * [-100, 100].
   */
  lemma RcCommandRoundTrip(lr: int, fb: int, ud: int, yaw: int)
    ensures ParseRc(RcCommand(lr, fb, ud, yaw)) == Some((Clamp100(lr), Clamp100(fb), Clamp100(ud), Clamp100(yaw)))
  {
    ParseIntRoundTrip(Clamp100(lr));
    ParseIntRoundTrip(Clamp100(fb));
    ParseIntRoundTrip(Clamp100(ud));
    ParseIntRoundTrip(Clamp100(yaw));
  }

  lemma RcCommandIsJoin(a: string, b: string, c: string, d: string)
    ensures "rc " + a + " " + b + " " + c + " " + d == Join(["rc", a, b, c, d], ' ')
  {
    var parts := ["rc", a, b, c, d];
    assert parts[1..][1..][1..][1..] == [d];
    assert Join(parts[1..][1..][1..], ' ') == c + [' '] + d;
    assert Join(parts[1..][1..], ' ') == b + [' '] + (c + [' '] + d);
    assert Join(parts[1..], ' ') == a + [' '] + (b + [' '] + (c + [' '] + d));
    assert Join(parts, ' ') == "rc" + [' '] + (a + [' '] + (b + [' '] + (c + [' '] + d)));
  }

  /** `send_rc` goes ahead unless less than RC_DELAY has passed since `last`. */
  predicate RcDue(now: int, last: int) {
    !(now - last < RC_DELAY)
  }

  // ---------------------------------------------------------------------
  // Timing of discrete commands
  // ---------------------------------------------------------------------

  /**
   * The sleep before a discrete command: when less than COMM_DELAY has
   * passed since the last answered command, the source sleeps for the time
   * that HAS passed (not for what is left of COMM_DELAY).
   */
  function PreSendDelay(elapsed: int): (d: int)
    ensures elapsed < COMM_DELAY ==> d == elapsed
    ensures elapsed >= COMM_DELAY ==> d == 0
    ensures 0 <= elapsed ==> 0 <= d < COMM_DELAY
  {
    if elapsed < COMM_DELAY then elapsed else 0
  }

  /** When a command called at `now` goes out, the last answered one having been at `last`. */
  function TransmitTime(now: int, last: int): (t: int)
    ensures last <= now ==> now <= t < now + COMM_DELAY
    ensures t == now <==> now - last >= COMM_DELAY || now == last
  {
    now + PreSendDelay(now - last)
  }

  /**
   * Consequence of sleeping the elapsed time: a command called soon after
   * the last one leaves at twice that distance from it, so the COMM_DELAY
   * spacing holds exactly when the call came at least COMM_DELAY / 2 after.
   */
  lemma TransmitGap(now: int, last: int)
    requires last <= now
    ensures now - last < COMM_DELAY ==> TransmitTime(now, last) - last == 2 * (now - last)
    ensures now - last >= COMM_DELAY ==> TransmitTime(now, last) == now
    ensures TransmitTime(now, last) - last >= COMM_DELAY <==> now - last >= COMM_DELAY / 2
  {
  }

  // ---------------------------------------------------------------------
  // The slot as the poll loop sees it
  // ---------------------------------------------------------------------

  /** A datagram the receive thread can read from time `at` on. */
  datatype Arrival = Arrival(at: int, datagram: Datagram)

  /** How many arrivals the receive thread has handled by time `c`: the longest prefix readable by then. */
  function Delivered(arrivals: seq<Arrival>, c: int): (n: nat)
    ensures n <= |arrivals|
    decreases |arrivals|
  {
    if |arrivals| == 0 || arrivals[0].at > c then 0 else 1 + Delivered(arrivals[1..], c)
  }

  /**
   * Delivered is the longest readable prefix: every arrival in it is there
   * by time `c`, and the one after it (if any) is not.
   */
  lemma {:induction false} DeliveredIsReadablePrefix(arrivals: seq<Arrival>, c: int)
    ensures forall i :: 0 <= i < Delivered(arrivals, c) ==> arrivals[i].at <= c
    ensures Delivered(arrivals, c) < |arrivals| ==> arrivals[Delivered(arrivals, c)].at > c
    decreases |arrivals|
  {
    if |arrivals| > 0 && arrivals[0].at <= c {
      DeliveredIsReadablePrefix(arrivals[1..], c);
      assert forall i :: 1 <= i < |arrivals| ==> arrivals[1..][i - 1] == arrivals[i];
    }
  }

  /** What has been handled stays handled: Delivered grows with time. */
  lemma {:induction false} DeliveredMonotone(arrivals: seq<Arrival>, c: int, c': int)
    requires c <= c'
    ensures Delivered(arrivals, c) <= Delivered(arrivals, c')
    decreases |arrivals|
  {
    if |arrivals| > 0 && arrivals[0].at <= c {
      DeliveredMonotone(arrivals[1..], c, c');
    }
  }

  /** Conversely, a readable prefix followed by an unreadable arrival is what is delivered. */
  lemma {:induction false} ReadablePrefixIsDelivered(arrivals: seq<Arrival>, c: int, n: nat)
    requires n <= |arrivals|
    requires forall i :: 0 <= i < n ==> arrivals[i].at <= c
    requires n < |arrivals| ==> arrivals[n].at > c
    ensures Delivered(arrivals, c) == n
    decreases n
  {
    if n > 0 {
      assert forall i :: 0 <= i < n - 1 ==> arrivals[1..][i] == arrivals[i + 1];
      ReadablePrefixIsDelivered(arrivals[1..], c, n - 1);
    }
  }

  /** The slot after the thread has handled `handled` in order, starting from `slot`. */
  function SlotAfterFrom(slot: Option<string>, handled: seq<Arrival>): Option<string>
    decreases |handled|
  {
    if |handled| == 0 then slot
    else ReceiveStep(SlotAfterFrom(slot, handled[..|handled| - 1]), handled[|handled| - 1].datagram)
  }

  /** The slot after the thread has handled `handled`, starting from the cleared slot. */
  function SlotAfter(handled: seq<Arrival>): Option<string> {
    SlotAfterFrom(None, handled)
  }

  /** The slot stays cleared exactly while every datagram handled is undecodable. */
  lemma {:induction false} SlotAfterEmpty(handled: seq<Arrival>)
    ensures SlotAfter(handled) == None <==> forall i :: 0 <= i < |handled| ==> handled[i].datagram.Undecodable?
    decreases |handled|
  {
    if |handled| > 0 {
      var front := handled[..|handled| - 1];
      SlotAfterEmpty(front);
      assert forall i :: 0 <= i < |front| ==> front[i] == handled[i];
    }
  }

  /** Datagrams that all fail to decode leave the slot as it was. */
  lemma {:induction false} SlotAfterUndecodable(slot: Option<string>, handled: seq<Arrival>)
    requires forall i :: 0 <= i < |handled| ==> handled[i].datagram.Undecodable?
    ensures SlotAfterFrom(slot, handled) == slot
    decreases |handled|
  {
    if |handled| > 0 {
      var front := handled[..|handled| - 1];
      assert forall i :: 0 <= i < |front| ==> front[i] == handled[i];
      SlotAfterUndecodable(slot, front);
    }
  }

  /** Whatever the slot held before, it ends with the stripped text of the last decodable datagram handled. */
  lemma {:induction false} SlotAfterLastDecoded(slot: Option<string>, handled: seq<Arrival>, i: nat)
    requires i < |handled| && handled[i].datagram.Decoded?
    requires forall j :: i < j < |handled| ==> handled[j].datagram.Undecodable?
    ensures SlotAfterFrom(slot, handled) == Some(StripLineEnd(handled[i].datagram.payload))
    decreases |handled|
  {
    var last := |handled| - 1;
    var front := handled[..last];
    if i < last {
      assert handled[last].datagram.Undecodable?;
      assert SlotAfterFrom(slot, handled) == SlotAfterFrom(slot, front);
      assert front[i] == handled[i];
      assert forall j :: i < j < |front| ==> front[j] == handled[j];
      SlotAfterLastDecoded(slot, front, i);
    }
  }

  /** The time of look `k` at the slot, the first being at `t0`. */
  function CheckTime(t0: int, k: nat): int {
    t0 + POLL_INTERVAL * k
  }

  /**
   * How many arrivals the receive thread has handled when `send` clears the
   * slot at `t0`: those readable before `t0`, which the clear erases.
   */
  function Erased(arrivals: seq<Arrival>, t0: int): nat {
    Delivered(arrivals, t0 - 1)
  }

  /**
   * The slot at look `k`: what the datagrams handled since the clear leave
   * in it; nothing arrives in it unless the receive thread runs.
   */
  function SlotAtCheck(arrivals: seq<Arrival>, t0: int, listening: bool, k: nat): Option<string> {
    if listening then
      DeliveredMonotone(arrivals, t0 - 1, CheckTime(t0, k));
      SlotAfter(arrivals[Erased(arrivals, t0)..Delivered(arrivals, CheckTime(t0, k))])
    else None
  }

  /** The slot at each look from the first (look 0) to the last (LAST_CHECK). */
  function Looks(arrivals: seq<Arrival>, t0: int, listening: bool): (looks: seq<Option<string>>)
    ensures |looks| == LAST_CHECK + 1
    ensures forall k :: 0 <= k < |looks| ==> looks[k] == SlotAtCheck(arrivals, t0, listening, k)
  {
    seq(LAST_CHECK + 1, k requires 0 <= k => SlotAtCheck(arrivals, t0, listening, k))
  }

  /** `while not self.__current_response`: neither None nor the empty string ends the wait. */
  predicate Responded(slot: Option<string>): (b: bool)
    ensures b <==> slot != None && slot != Some("")
  {
    slot.Some? && slot.value != ""
  }

  /** The first look, from look `k` on, at which the slot holds a response. */
  function FirstAnswer(looks: seq<Option<string>>, k: nat): (r: Option<nat>)
    requires k <= |looks|
    ensures r.Some? ==> k <= r.value < |looks| && Responded(looks[r.value])
    decreases |looks| - k
  {
    if k == |looks| then None
    else if Responded(looks[k]) then Some(k)
    else FirstAnswer(looks, k + 1)
  }

  /**
   * The answer is the first responding look: None exactly when no look
   * from `k` on finds a response, and no look before the answer finds one.
   */
  lemma {:induction false} FirstAnswerIsFirst(looks: seq<Option<string>>, k: nat)
    requires k <= |looks|
    ensures FirstAnswer(looks, k).None? <==> forall j :: k <= j < |looks| ==> !Responded(looks[j])
    ensures FirstAnswer(looks, k).Some? ==> forall j :: k <= j < FirstAnswer(looks, k).value ==> !Responded(looks[j])
    decreases |looks| - k
  {
    if k < |looks| && !Responded(looks[k]) {
      FirstAnswerIsFirst(looks, k + 1);
    }
  }

  /**
   * What `send` returns: the first response, lower-cased, or None on
   * timeout. A reply is never empty and is already in lower case.
   */
  function SendResult(arrivals: seq<Arrival>, t0: int, listening: bool): (r: Option<string>)
    ensures r.Some? ==> r.value != "" && Lower(r.value) == r.value
  {
    var looks := Looks(arrivals, t0, listening);
    match FirstAnswer(looks, 0)
    case None => None
    case Some(k) =>
      LowerIdempotent(looks[k].value);
      Some(Lower(looks[k].value))
  }

  /**
   * A single non-empty reply that arrives after the command went out and
   * within the timeout window is what `send` returns, stripped and
   * lower-cased.
   */
  lemma SingleReplyAnswered(p: string, a: int, t0: int)
    requires StripLineEnd(p) != ""
    requires t0 <= a <= CheckTime(t0, LAST_CHECK)
    ensures SendResult([Arrival(a, Decoded(p))], t0, true) == Some(Lower(StripLineEnd(p)))
  {
    var arrivals := [Arrival(a, Decoded(p))];
    var looks := Looks(arrivals, t0, true);
    assert Erased(arrivals, t0) == 0;
    assert arrivals[0..1] == arrivals;
    SlotAfterLastDecoded(None, arrivals, 0);
    assert Responded(looks[LAST_CHECK]);
    FirstAnswerIsFirst(looks, 0);
    var k := FirstAnswer(looks, 0).value;
    assert Delivered(arrivals, CheckTime(t0, k)) == 1;
  }

  /**
   * A datagram read before the command went out is erased by the clear: a
   * stale reply followed by a fresh one gives the fresh one.
   */
  lemma StaleReplyErased(stale: Datagram, p: string, t0: int)
    requires StripLineEnd(p) != ""
    ensures SendResult([Arrival(t0 - 10, stale), Arrival(t0 + 50, Decoded(p))], t0, true) == Some(Lower(StripLineEnd(p)))
  {
    var arrivals := [Arrival(t0 - 10, stale), Arrival(t0 + 50, Decoded(p))];
    var looks := Looks(arrivals, t0, true);
    StaleReplyLooks(arrivals, t0);
    assert !Responded(looks[0]) && Responded(looks[1]);
    assert FirstAnswer(looks, 0) == Some(1);
  }

  /** The slot at the first two looks of the script of StaleReplyErased. */
  lemma StaleReplyLooks(arrivals: seq<Arrival>, t0: int)
    requires |arrivals| == 2 && arrivals[0].at == t0 - 10 && arrivals[1].at == t0 + 50
    requires arrivals[1].datagram.Decoded?
    ensures SlotAtCheck(arrivals, t0, true, 0) == None
    ensures SlotAtCheck(arrivals, t0, true, 1) == Some(StripLineEnd(arrivals[1].datagram.payload))
  {
    assert Delivered(arrivals[1..], t0 - 1) == 0;
    assert Erased(arrivals, t0) == 1;
    assert Delivered(arrivals[1..], CheckTime(t0, 0)) == 0;
    assert Delivered(arrivals, CheckTime(t0, 0)) == 1;
    assert arrivals[1..1] == [];
    assert Delivered(arrivals[1..][1..], CheckTime(t0, 1)) == 0;
    assert Delivered(arrivals, CheckTime(t0, 1)) == 2;
    var reply := arrivals[1..2];
    assert reply[..0] == [] && reply[0] == arrivals[1];
  }

  /** Replies that were all read before the command went out are all erased: `send` times out. */
  lemma EarlyRepliesTimeOut(arrivals: seq<Arrival>, t0: int, listening: bool)
    requires forall i :: 0 <= i < |arrivals| ==> arrivals[i].at < t0
    ensures SendResult(arrivals, t0, listening) == None
  {
    var looks := Looks(arrivals, t0, listening);
    ReadablePrefixIsDelivered(arrivals, t0 - 1, |arrivals|);
    forall j | 0 <= j < |looks|
      ensures !Responded(looks[j])
    {
      DeliveredMonotone(arrivals, t0 - 1, CheckTime(t0, j));
      assert arrivals[Erased(arrivals, t0)..Delivered(arrivals, CheckTime(t0, j))] == [];
    }
    FirstAnswerIsFirst(looks, 0);
  }

  /** Without a running receive thread every command times out. */
  lemma NotListeningTimesOut(arrivals: seq<Arrival>, t0: int)
    ensures SendResult(arrivals, t0, false) == None
  {
    FirstAnswerIsFirst(Looks(arrivals, t0, false), 0);
  }

  /** A reply that arrives after the last look at the slot is never seen. */
  lemma LateReplyTimesOut(arrivals: seq<Arrival>, t0: int, listening: bool)
    requires forall i :: 0 <= i < |arrivals| ==> arrivals[i].at > CheckTime(t0, LAST_CHECK)
    ensures SendResult(arrivals, t0, listening) == None
  {
    var looks := Looks(arrivals, t0, listening);
    forall j | 0 <= j < |looks|
      ensures !Responded(looks[j])
    {
      assert arrivals[Erased(arrivals, t0)..Delivered(arrivals, CheckTime(t0, j))] == [];
    }
    FirstAnswerIsFirst(looks, 0);
  }

  // ---------------------------------------------------------------------
  // The channel object
  // ---------------------------------------------------------------------

  class TelloCommand {
    /** `time.time()`, in milliseconds. */
    var clock: int
    /** When the last discrete command was answered (initially 0). */
    var lastCommandTime: int
    /** When the last RC command was issued: initially 0 and never written. */
    var lastRcCommandTime: int
    /** The single-slot cache of the latest response (or None). */
    var response: Option<string>
    /** The flag the receive loop checks. */
    var threadStarted: bool
    /** Where the receive thread is in its life. */
    var phase: ThreadPhase
    /** Every datagram sent to the drone, in order. */
    var sent: seq<string>

    ghost predicate Valid()
      reads this
    {
      && lastCommandTime <= clock
      && lastRcCommandTime == 0
      && (phase == NotStarted ==> !threadStarted)
      && (phase == Running ==> threadStarted)
    }

    /** The socket is bound and the thread created, not started. */
    constructor (startTime: nat)
      ensures Valid()
      ensures clock == startTime && lastCommandTime == 0 && lastRcCommandTime == 0
      ensures response == None && !threadStarted && phase == NotStarted && sent == []
    {
      clock := startTime;
      lastCommandTime := 0;
      lastRcCommandTime := 0;
      response := None;
      threadStarted := false;
      phase := NotStarted;
      sent := [];
    }

    /** Time passing between calls. */
    method Advance(dt: nat)
      requires Valid()
      modifies this`clock
      ensures Valid()
      ensures clock == old(clock) + dt
    {
      clock := clock + dt;
    }

    /** One pass of the receive loop: the datagram overwrites the slot while the thread runs. */
    method Receive(d: Datagram)
      modifies this`response
      ensures response == if phase == Running then ReceiveStep(old(response), d) else old(response)
    {
      if phase == Running {
        response := ReceiveStep(response, d);
      }
    }

    /**
     * The receive thread handles every arrival readable by now, from `from`
     * on; the slot holds what those handled since the clear, from `e` on,
     * leave in it.
     */
    method ReceiveAvailable(arrivals: seq<Arrival>, e: nat, from: nat) returns (n: nat)
      requires phase == Running
      requires e <= from <= |arrivals|
      requires forall i :: 0 <= i < from ==> arrivals[i].at <= clock
      requires response == SlotAfter(arrivals[e..from])
      modifies this`response
      ensures from <= n <= |arrivals| && n == Delivered(arrivals, clock)
      ensures response == SlotAfter(arrivals[e..n])
    {
      n := from;
      while n < |arrivals| && arrivals[n].at <= clock
        invariant from <= n <= |arrivals|
        invariant forall i :: 0 <= i < n ==> arrivals[i].at <= clock
        invariant response == SlotAfter(arrivals[e..n])
      {
        ghost var handled := arrivals[e..n + 1];
        assert handled[..|handled| - 1] == arrivals[e..n] && handled[|handled| - 1] == arrivals[n];
        Receive(arrivals[n].datagram);
        n := n + 1;
      }
      ReadablePrefixIsDelivered(arrivals, clock, n);
    }

    /**
     * Before `send` clears the slot at `clock`, the receive thread has
     * handled every arrival readable before then, each overwriting the
     * slot in turn; what it wrote is about to be erased.
     */
    method ReceiveBeforeClear(arrivals: seq<Arrival>) returns (e: nat)
      requires phase == Running
      modifies this`response
      ensures e == Erased(arrivals, clock) && e <= |arrivals|
      ensures response == SlotAfterFrom(old(response), arrivals[..e])
    {
      e := 0;
      assert arrivals[..0] == [];
      while e < |arrivals| && arrivals[e].at < clock
        invariant e <= |arrivals|
        invariant forall i :: 0 <= i < e ==> arrivals[i].at <= clock - 1
        invariant response == SlotAfterFrom(old(response), arrivals[..e])
      {
        assert arrivals[..e + 1][..e] == arrivals[..e];
        Receive(arrivals[e].datagram);
        e := e + 1;
      }
      ReadablePrefixIsDelivered(arrivals, clock - 1, e);
    }

    /** The first look of the poll loop, right after the slot was cleared. */
    method FirstLook(arrivals: seq<Arrival>, t0: int, e: nat) returns (n: nat)
      requires clock == t0 && response == None
      requires phase == Running ==> e == Erased(arrivals, t0)
      modifies this`response
      ensures phase == Running ==> n == Delivered(arrivals, clock)
      ensures response == SlotAtCheck(arrivals, t0, phase == Running, 0)
    {
      n := 0;
      if phase == Running {
        DeliveredIsReadablePrefix(arrivals, t0 - 1);
        assert arrivals[e..e] == [];
        n := ReceiveAvailable(arrivals, e, e);
      }
    }

    /**
     * One more look of the poll loop: wait POLL_INTERVAL, and let the
     * receive thread handle what arrived meanwhile.
     */
    method NextLook(arrivals: seq<Arrival>, t0: int, e: nat, k: nat, n: nat) returns (n': nat)
      requires clock == CheckTime(t0, k)
      requires phase == Running ==> e == Erased(arrivals, t0) && n == Delivered(arrivals, clock)
      requires response == SlotAtCheck(arrivals, t0, phase == Running, k)
      modifies this`clock, this`response
      ensures clock == CheckTime(t0, k + 1)
      ensures phase == Running ==> n' == Delivered(arrivals, clock)
      ensures response == SlotAtCheck(arrivals, t0, phase == Running, k + 1)
    {
      DeliveredIsReadablePrefix(arrivals, clock);
      DeliveredMonotone(arrivals, t0 - 1, clock);
      clock := clock + POLL_INTERVAL;
      n' := n;
      if phase == Running {
        n' := ReceiveAvailable(arrivals, e, n);
      }
    }

    /**
     * The poll loop of `send`, the slot having been cleared at `t0` after
     * the receive thread handled the first `e` arrivals: look at the slot
     * every POLL_INTERVAL until it holds a non-empty response or more than
     * TIMEOUT has passed; report the look that found it.
     */
    method Poll(arrivals: seq<Arrival>, t0: int, e: nat) returns (answer: Option<nat>)
      requires clock == t0 && response == None
      requires phase == Running ==> e == Erased(arrivals, t0)
      modifies this`clock, this`response
      ensures answer == FirstAnswer(Looks(arrivals, t0, phase == Running), 0)
      ensures answer.None? ==> clock == CheckTime(t0, LAST_CHECK)
      ensures answer.Some? ==> clock == CheckTime(t0, answer.value)
      ensures response == SlotAtCheck(arrivals, t0, phase == Running, if answer.Some? then answer.value else LAST_CHECK)
    {
      var listening := phase == Running;
      ghost var looks := Looks(arrivals, t0, listening);
      var k := 0;
      var n := FirstLook(arrivals, t0, e);
      while !Responded(response)
        invariant 0 <= k <= LAST_CHECK
        invariant clock == CheckTime(t0, k)
        invariant listening ==> n == Delivered(arrivals, clock)
        invariant response == looks[k]
        invariant FirstAnswer(looks, 0) == FirstAnswer(looks, k)
        decreases LAST_CHECK - k
      {
        if clock - t0 > TIMEOUT {
          assert k == LAST_CHECK;
          assert FirstAnswer(looks, k) == FirstAnswer(looks, k + 1);
          return None;
        }
        assert FirstAnswer(looks, k) == FirstAnswer(looks, k + 1);
        n := NextLook(arrivals, t0, e, k, n);
        k := k + 1;
      }
      answer := Some(k);
    }

    /**
     * The state `send` leaves behind for a command that went out at `t0`,
     * the previous answer having come at `last`: on timeout the clock is at
     * the last look and the last command time is kept; otherwise the clock
     * is at the answering look, which becomes the last command time. The
     * slot is as that look found it.
     */
    ghost predicate AfterSend(arrivals: seq<Arrival>, t0: int, last: int)
      reads this
    {
      match FirstAnswer(Looks(arrivals, t0, phase == Running), 0)
      case None =>
        && clock == CheckTime(t0, LAST_CHECK)
        && lastCommandTime == last
        && response == SlotAtCheck(arrivals, t0, phase == Running, LAST_CHECK)
      case Some(k) =>
        && clock == CheckTime(t0, k)
        && lastCommandTime == clock
        && response == SlotAtCheck(arrivals, t0, phase == Running, k)
    }

    /**
     * `send`: sleep before sending when called too soon, clear the slot
     * (erasing what the receive thread read before), transmit, then poll
     * until the slot holds a non-empty response (answered: record the time,
     * return it lower-cased) or the timeout passes (return None, time not
     * recorded).
     */
    method Send(command: string, arrivals: seq<Arrival>) returns (r: Option<string>)
      requires Valid()
      modifies this
      ensures Valid()
      ensures sent == old(sent) + [command]
      ensures phase == old(phase) && threadStarted == old(threadStarted)
      ensures lastRcCommandTime == old(lastRcCommandTime)
      ensures old(clock) <= clock
      ensures r == SendResult(arrivals, TransmitTime(old(clock), old(lastCommandTime)), phase == Running)
      ensures AfterSend(arrivals, TransmitTime(old(clock), old(lastCommandTime)), old(lastCommandTime))
    {
      var elapsed := clock - lastCommandTime;
      if elapsed < COMM_DELAY {
        clock := clock + elapsed;
      }
      var t0 := clock;
      assert t0 == TransmitTime(old(clock), old(lastCommandTime));
      var e := 0;
      if phase == Running {
        e := ReceiveBeforeClear(arrivals);
      }
      response := None;
      sent := sent + [command];
      var answer := Poll(arrivals, t0, e);
      if answer.None? {
        assert SendResult(arrivals, t0, phase == Running) == None;
        return None;
      }
      assert SendResult(arrivals, t0, phase == Running) == Some(Lower(response.value));
      lastCommandTime := clock;
      r := Some(Lower(response.value));
    }

    /**
     * `send_rc`: unless called less than RC_DELAY after `lastRcCommandTime`,
     * transmit the RC datagram of the clamped values; never waits for a reply.
     */
    method SendRc(lr: int, fb: int, ud: int, yaw: int)
      requires Valid()
      modifies this`sent
      ensures Valid()
      ensures sent == old(sent) + (if RcDue(clock, lastRcCommandTime) then [RcCommand(lr, fb, ud, yaw)] else [])
      ensures clock >= RC_DELAY ==> sent == old(sent) + [RcCommand(lr, fb, ud, yaw)]
    {
      if clock - lastRcCommandTime < RC_DELAY {
        return;
      }
      var command := RcCommand(lr, fb, ud, yaw);
      sent := sent + [command];
    }

    /**
     * `start` of the copy under src/: raise the flag and start the thread
     * (a second start raises), then send "command" and fail unless the
     * answer is "ok".
     */
    method Start(arrivals: seq<Arrival>) returns (outcome: Outcome<Fault>)
      requires Valid()
      modifies this
      ensures Valid()
      ensures threadStarted && lastRcCommandTime == old(lastRcCommandTime)
      ensures old(phase) != NotStarted ==>
                && outcome == Fail(ThreadAlreadyStarted)
                && phase == old(phase) && sent == old(sent) && response == old(response)
                && clock == old(clock) && lastCommandTime == old(lastCommandTime)
      ensures old(phase) == NotStarted ==>
                && phase == Running
                && sent == old(sent) + ["command"]
                && old(clock) <= clock
                && AfterSend(arrivals, TransmitTime(old(clock), old(lastCommandTime)), old(lastCommandTime))
                && outcome == if SendResult(arrivals, TransmitTime(old(clock), old(lastCommandTime)), true) == Some("ok")
                              then Pass else Fail(ConnectFailed)
    {
      threadStarted := true;
      if phase != NotStarted {
        outcome := Fail(ThreadAlreadyStarted);
        return;
      }
      phase := Running;
      var reply := Send("command", arrivals);
      outcome := if reply == Some("ok") then Pass else Fail(ConnectFailed);
    }

    /**
     * `start` of the copy under rktellolib/: send a bare "command" datagram
     * without waiting for any reply, then raise the flag and start the
     * thread (a second start raises).
     */
    method StartRaw() returns (outcome: Outcome<Fault>)
      requires Valid()
      modifies this`sent, this`threadStarted, this`phase
      ensures Valid()
      ensures sent == old(sent) + ["command"] && threadStarted
      ensures old(phase) == NotStarted ==> phase == Running && outcome == Pass
      ensures old(phase) != NotStarted ==> phase == old(phase) && outcome == Fail(ThreadAlreadyStarted)
    {
      sent := sent + ["command"];
      threadStarted := true;
      if phase != NotStarted {
        outcome := Fail(ThreadAlreadyStarted);
        return;
      }
      phase := Running;
      outcome := Pass;
    }

    /** `stop`: lower the flag; a running thread leaves its loop for good. */
    method Stop()
      requires Valid()
      modifies this`threadStarted, this`phase
      ensures Valid()
      ensures !threadStarted
      ensures phase == if old(phase) == Running then Exited else old(phase)
    {
      threadStarted := false;
      if phase == Running {
        phase := Exited;
      }
    }
  }
}
