/**
 * TelloState: the telemetry channel on UDP port 8890. The drone
 * broadcasts its whole state as `key:value;key:value;...;`; the channel
 * keeps the latest broadcast in a single slot and looks keys up in it on
 * demand.
 */
module TelloState {
  import opened Wrappers
  import opened Text
  import opened Channel

  // ---------------------------------------------------------------------
  // The field parser
  // ---------------------------------------------------------------------

  /** The key of a segment: `field.split(':')[0]`. */
  function Key(segment: string): string {
    Split(segment, ':')[0]
  }

  /**
   * What a segment whose key matches yields: `parts[1]`, the text after its
   * first ':' up to the next one, or an IndexError when it holds no ':'.
   */
  function ValueOf(segment: string): (r: Result<Option<string>, Fault>)
    ensures r.Err? <==> ':' !in segment
    ensures r.Err? ==> r.error == IndexOutOfRange
    ensures r.Ok? ==> r.value.Some? && ':' !in r.value.value
  {
    var parts := Split(segment, ':');
    if |parts| >= 2 then Ok(Some(parts[1])) else Err(IndexOutOfRange)
  }

  /** Segment `i` is the first whose key is `name`. */
  ghost predicate IsFirstMatch(segments: seq<string>, name: string, i: int) {
    && 0 <= i < |segments|
    && Key(segments[i]) == name
    && forall j :: 0 <= j < i ==> Key(segments[j]) != name
  }

  /**
   * The loop of `__get_state_field` over the segments: the value of the
   * first segment whose key is `name`, or None when no key is `name`.
   */
  function FieldIn(segments: seq<string>, name: string): (r: Result<Option<string>, Fault>)
    ensures r == Ok(None) <==> forall i :: 0 <= i < |segments| ==> Key(segments[i]) != name
    ensures forall i :: IsFirstMatch(segments, name, i) ==> r == ValueOf(segments[i])
    ensures r.Err? ==> r.error == IndexOutOfRange
    ensures r.Ok? && r.value.Some? ==> ':' !in r.value.value
    decreases |segments|
  {
    if |segments| == 0 then Ok(None)
    else if Key(segments[0]) == name then ValueOf(segments[0])
    else FieldIn(segments[1..], name)
  }

  /** `__get_state_field(name)` on the state string `state`. */
  function StateField(state: string, name: string): (r: Result<Option<string>, Fault>)
    ensures r.Err? ==> r.error == IndexOutOfRange
    ensures r.Ok? && r.value.Some? ==> ':' !in r.value.value
  {
    FieldIn(Split(state, ';'), name)
  }

  /**
   * A lookup finds the value of the first segment with a matching key,
   * fails with IndexError when that segment holds no ':', and finds
   * nothing (None) exactly when no segment has the key.
   */
  lemma StateFieldCases(state: string, name: string)
    ensures StateField(state, name) == Ok(None)
            <==> forall i :: 0 <= i < |Split(state, ';')| ==> Key(Split(state, ';')[i]) != name
    ensures forall i :: IsFirstMatch(Split(state, ';'), name, i) ==>
              && (StateField(state, name).Err? <==> ':' !in Split(state, ';')[i])
              && (':' in Split(state, ';')[i] ==> StateField(state, name) == Ok(Some(Split(Split(state, ';')[i], ':')[1])))
  {
  }

  /** A `key:value` segment, key and value holding no ':'. */
  lemma KeyValueSegment(key: string, value: string)
    requires ':' !in key && ':' !in value
    ensures Split(key + ":" + value, ':') == [key, value]
    ensures Key(key + ":" + value) == key
    ensures ValueOf(key + ":" + value) == Ok(Some(value))
  {
    SplitAfterPiece(key, value, ':');
    SplitWithoutSeparator(value, ':');
  }

  // ---------------------------------------------------------------------
  // `get` in its two copies
  // ---------------------------------------------------------------------

  /**
   * `get(field)` of the copy under src/, over the slot `current`: None
   * before any state arrived; with no field the raw state; otherwise the
   * field's lookup.
   */
  function Get(current: Option<string>, field: Option<string>): (r: Result<Option<string>, Fault>)
    ensures current.None? ==> r == Ok(None)
    ensures current.Some? && field.None? ==> r == Ok(current)
    ensures current.Some? && field.Some? ==> r == StateField(current.value, field.value)
    ensures r.Err? ==> r.error == IndexOutOfRange
  {
    if current.None? then Ok(None)
    else if field.None? then Ok(current)
    else StateField(current.value, field.value)
  }

  /**
   * `get(field)` of the copy under rktellolib/: no None guard, so a field
   * lookup before any state arrived fails on `None.split`.
   */
  function GetUnguarded(current: Option<string>, field: Option<string>): (r: Result<Option<string>, Fault>)
    ensures field.None? ==> r == Ok(current)
    ensures field.Some? && current.None? ==> r == Err(NoneHasNoSplit)
    ensures field.Some? && current.Some? ==> r == StateField(current.value, field.value)
  {
    if field.None? then Ok(current)
    else if current.None? then Err(NoneHasNoSplit)
    else StateField(current.value, field.value)
  }

  /** The two copies agree except on a field lookup before any state arrived. */
  lemma GetCopiesAgree(current: Option<string>, field: Option<string>)
    ensures current.Some? ==> Get(current, field) == GetUnguarded(current, field)
    ensures current.None? ==> Get(current, field) == Ok(None)
    ensures current.None? && field.Some? ==> GetUnguarded(current, field) == Err(NoneHasNoSplit)
  {
  }

  /** The segments `key:value` of a broadcast. */
  function Segments(keys: seq<string>, values: seq<string>): (segments: seq<string>)
    requires |keys| == |values|
    ensures |segments| == |keys|
    ensures forall i :: 0 <= i < |keys| ==> segments[i] == keys[i] + ":" + values[i]
  {
    seq(|keys|, i requires 0 <= i < |keys| => keys[i] + ":" + values[i])
  }

  /** A broadcast as the drone sends it: `k1:v1;k2:v2;...;`, ending in ';'. */
  function Frame(keys: seq<string>, values: seq<string>): string
    requires |keys| == |values|
  {
    Join(Segments(keys, values) + [""], ';')
  }

  /** Neither separator occurs in `s`. */
  predicate Plain(s: string) {
    ':' !in s && ';' !in s
  }

  /**
   * In a broadcast, a lookup finds the value of the first entry with the
   * key, finds nothing for a key no entry has, and fails on the empty key,
   * which matches the empty segment after the final ';'.
   */
  lemma {:induction false} FrameLookup(keys: seq<string>, values: seq<string>, name: string)
    requires |keys| == |values|
    requires forall i :: 0 <= i < |keys| ==> Plain(keys[i]) && Plain(values[i])
    ensures forall i :: (0 <= i < |keys| && keys[i] == name && forall j :: 0 <= j < i ==> keys[j] != name)
                        ==> StateField(Frame(keys, values), name) == Ok(Some(values[i]))
    ensures (name != "" && forall i :: 0 <= i < |keys| ==> keys[i] != name)
            ==> StateField(Frame(keys, values), name) == Ok(None)
    ensures (name == "" && forall i :: 0 <= i < |keys| ==> keys[i] != name)
            ==> StateField(Frame(keys, values), name) == Err(IndexOutOfRange)
  {
    var segments := Segments(keys, values) + [""];
    forall i | 0 <= i < |segments| ensures ';' !in segments[i] {
      if i < |keys| {
        assert segments[i] == keys[i] + ":" + values[i];
      }
    }
    SplitJoin(segments, ';');
    assert Split(Frame(keys, values), ';') == segments;
    forall i | 0 <= i < |keys|
      ensures Key(segments[i]) == keys[i] && ValueOf(segments[i]) == Ok(Some(values[i]))
    {
      KeyValueSegment(keys[i], values[i]);
    }
    assert Key(segments[|keys|]) == "";
    forall i | 0 <= i < |keys| && keys[i] == name && (forall j :: 0 <= j < i ==> keys[j] != name)
      ensures StateField(Frame(keys, values), name) == Ok(Some(values[i]))
    {
      assert IsFirstMatch(segments, name, i);
    }
    if forall i :: 0 <= i < |keys| ==> keys[i] != name {
      if name == "" {
        assert IsFirstMatch(segments, name, |keys|);
      } else {
        assert forall i :: 0 <= i < |segments| ==> Key(segments[i]) != name;
      }
    }
  }

  // ---------------------------------------------------------------------
  // The channel object
  // ---------------------------------------------------------------------

  class TelloState {
    /** The single-slot cache of the latest state broadcast (or None). */
    var currentState: Option<string>
    /** The flag the receive loop checks. */
    var threadStarted: bool
    /** Where the receive thread is in its life. */
    var phase: ThreadPhase
    /** Whether a state callback was given (src/ copy only). */
    const hasCallback: bool
    /** Every state handed to the callback, in order. */
    var notified: seq<string>

    ghost predicate Valid()
      reads this
    {
      && (phase == NotStarted ==> !threadStarted)
      && (phase == Running ==> threadStarted)
    }

    /** The socket is bound and the thread created, not started. */
    constructor (hasCallback: bool)
      ensures Valid()
      ensures currentState == None && !threadStarted && phase == NotStarted
      ensures this.hasCallback == hasCallback && notified == []
    {
      currentState := None;
      threadStarted := false;
      phase := NotStarted;
      this.hasCallback := hasCallback;
      notified := [];
    }

    /**
     * One pass of the receive loop while the thread runs: the stripped
     * broadcast replaces the whole state (and goes to the callback, if
     * any); an undecodable datagram changes nothing.
     */
    method Receive(d: Datagram)
      modifies this`currentState, this`notified
      ensures currentState == if phase == Running then ReceiveStep(old(currentState), d) else old(currentState)
      ensures notified == old(notified) + (if phase == Running && hasCallback && d.Decoded? then [StripLineEnd(d.payload)] else [])
    {
      if phase == Running {
        currentState := ReceiveStep(currentState, d);
        if hasCallback && d.Decoded? {
          notified := notified + [currentState.value];
        }
      }
    }

    /** `start`: raise the flag and start the thread; a second start raises. */
    method Start() returns (outcome: Outcome<Fault>)
      requires Valid()
      modifies this`threadStarted, this`phase
      ensures Valid()
      ensures threadStarted
      ensures old(phase) == NotStarted ==> phase == Running && outcome == Pass
      ensures old(phase) != NotStarted ==> phase == old(phase) && outcome == Fail(ThreadAlreadyStarted)
    {
      threadStarted := true;
      if phase != NotStarted {
        outcome := Fail(ThreadAlreadyStarted);
        return;
      }
      phase := Running;
      outcome := Pass;
    }

    /** `stop`: lower the flag; a running thread leaves its loop for good. */
    method Stop()
      requires Valid()
      modifies this`threadStarted, this`phase
      ensures Valid()
      ensures !threadStarted
      ensures phase == if old(phase) == Running then Exited else old(phase)
    {
      threadStarted := false;
      if phase == Running {
        phase := Exited;
      }
    }
  }
}
