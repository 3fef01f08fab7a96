/** The key-event loop of the terminal version's `capture_keystroke_timing`.
    The terminal reads and the clock are replaced by a sequence of key events,
    each carrying the time at which it was read. */
module KeyCapture {
  import Stats
  /** `msvcrt` on Windows, `termios` raw mode elsewhere. */
  datatype Platform = Windows | Posix

  /** A key read from the terminal and the clock reading taken right after it.
      On Windows the key is one byte of `getch`, held as the character of that code. */
  datatype KeyEvent = KeyEvent(key: char, time: real)

  /** What the loop does with one key. */
  datatype Action = Enter | Backspace | Typed(c: char) | Ignored | Interrupt

  /** The branches of the loop for each platform. On Windows a byte that does
      not decode as UTF-8 on its own (128 and above) is dropped; on the other
      platforms the byte of Ctrl+C raises `KeyboardInterrupt`. */
  function Classify(platform: Platform, key: char): (a: Action)
    ensures a.Typed? ==> a.c == key
    ensures a.Ignored? ==> platform == Windows
    ensures a.Interrupt? ==> platform == Posix
  {
    match platform
    case Windows =>
      if key == '\r' then Enter
      else if key == '\U{8}' then Backspace
      else if key as int < 128 then Typed(key)
      else Ignored
    case Posix =>
      if key == '\r' || key == '\n' then Enter
      else if key == '\U{7F}' then Backspace
      else if key == '\U{3}' then Interrupt
      else Typed(key)
  }

  /** `password`, `timings` and `last_time` inside the loop. */
  datatype CaptureState = CaptureState(password: string, timings: seq<real>, lastTime: real)

  /** The state when the prompt is shown at time `start`. */
  function Start(start: real): CaptureState {
    CaptureState("", [], start)
  }

  /** Python's `s[:-1]`, which leaves an empty list empty. */
  function DropLast<T>(s: seq<T>): (r: seq<T>)
    ensures |r| == if |s| == 0 then 0 else |s| - 1
  {
    if |s| == 0 then [] else s[..|s| - 1]
  }
  /** Dropping the last element undoes appending one. */
  lemma DropLastAppend<T>(s: seq<T>, x: T)
    ensures DropLast(s + [x]) == s
  {
    assert (s + [x])[..|s|] == s;
  }


  /** One pass of the loop for a key that neither ends the capture nor interrupts it. */
  function Step(s: CaptureState, a: Action, time: real): CaptureState
    requires a.Backspace? || a.Typed? || a.Ignored?
  {
    match a
    case Backspace =>
      if |s.password| > 0 then CaptureState(DropLast(s.password), DropLast(s.timings), s.lastTime)
      else s
    case Typed(c) => CaptureState(s.password + [c], s.timings + [time - s.lastTime], time)
    case Ignored => s
  }

  /** The result of a capture: the password and its intervals, or the
      `KeyboardInterrupt` raised by Ctrl+C. */
  datatype Capture = Interrupted | Captured(password: string, timings: seq<real>)

  /** The loop run over `events` from state `s`: it stops at the first Enter or
      Ctrl+C, or when the events run out. */
  function Run(platform: Platform, s: CaptureState, events: seq<KeyEvent>): Capture
    decreases |events|
  {
    if |events| == 0 then Captured(s.password, s.timings)
    else
      var a := Classify(platform, events[0].key);
      match a
      case Enter => Captured(s.password, s.timings)
      case Interrupt => Interrupted
      case _ => Run(platform, Step(s, a, events[0].time), events[1..])
  }

  /** `capture_keystroke_timing` with the prompt shown at `start`. */
  function CaptureTiming(platform: Platform, start: real, events: seq<KeyEvent>): Capture {
    Run(platform, Start(start), events)
  }

  /** The capture loop. */
  method CaptureKeystrokeTiming(platform: Platform, start: real, events: seq<KeyEvent>)
    returns (c: Capture)
    ensures c == CaptureTiming(platform, start, events)
  {
    var password: string := "";
    var timings: seq<real> := [];
    var lastTime := start;
    var i := 0;
    ghost var target := CaptureTiming(platform, start, events);
    while i < |events|
      invariant 0 <= i <= |events|
      invariant Run(platform, CaptureState(password, timings, lastTime), events[i..]) == target
    {
      var key := events[i].key;
      var currentTime := events[i].time;
      var action := Classify(platform, key);
      ghost var before := CaptureState(password, timings, lastTime);
      if action.Enter? {
        RunStep(platform, before, events, i);
        return Captured(password, timings);
      } else if action.Backspace? {
        if |password| > 0 {
          password := DropLast(password);
          timings := DropLast(timings);
        }
        assert CaptureState(password, timings, lastTime) == Step(before, Backspace, currentTime);
      } else if action.Interrupt? {
        RunStep(platform, before, events, i);
        return Interrupted;
      } else if action.Typed? {
        password := password + [action.c];
        var interval := currentTime - lastTime;
        timings := timings + [interval];
        lastTime := currentTime;
        assert CaptureState(password, timings, lastTime) == Step(before, action, currentTime);
      } else {
        assert CaptureState(password, timings, lastTime) == Step(before, Ignored, currentTime);
      }
      RunAdvance(platform, before, events, i);
      i := i + 1;
    }
    return Captured(password, timings);
  }

  /** The loop's view of `Run`: one event, then the rest. */
  lemma RunStep(platform: Platform, s: CaptureState, events: seq<KeyEvent>, i: int)
    requires 0 <= i < |events|
    ensures var a := Classify(platform, events[i].key);
      Run(platform, s, events[i..]) ==
        if a.Enter? then Captured(s.password, s.timings)
        else if a.Interrupt? then Interrupted
        else Run(platform, Step(s, a, events[i].time), events[i + 1..])
  {
    assert events[i..][0] == events[i];
    assert events[i..][1..] == events[i + 1..];
  }

  /** A key that neither ends nor interrupts the capture moves the loop on by one event. */
  lemma RunAdvance(platform: Platform, s: CaptureState, events: seq<KeyEvent>, i: int)
    requires 0 <= i < |events|
    requires var a := Classify(platform, events[i].key); !a.Enter? && !a.Interrupt?
    ensures Run(platform, s, events[i..]) ==
      Run(platform, Step(s, Classify(platform, events[i].key), events[i].time), events[i + 1..])
  {
    RunStep(platform, s, events, i);
  }

  /** One interval per character, in every state the loop passes through. */
  predicate Aligned(s: CaptureState) {
    |s.timings| == |s.password|
  }

  lemma {:induction false} RunKeepsAligned(platform: Platform, s: CaptureState, events: seq<KeyEvent>)
    requires Aligned(s)
    ensures Run(platform, s, events).Captured? ==>
      |Run(platform, s, events).timings| == |Run(platform, s, events).password|
    decreases |events|
  {
    if |events| > 0 {
      var a := Classify(platform, events[0].key);
      if a.Backspace? || a.Typed? || a.Ignored? {
        RunKeepsAligned(platform, Step(s, a, events[0].time), events[1..]);
      }
    }
  }

  /** A captured password has exactly one interval per character. */
  lemma CapturedAligned(platform: Platform, start: real, events: seq<KeyEvent>)
    ensures var c := CaptureTiming(platform, start, events);
      c.Captured? ==> |c.timings| == |c.password|
  {
    RunKeepsAligned(platform, Start(start), events);
  }

  /** Backspace drops the last character with its interval and leaves the time
      of the last accepted key as it was, so the next interval is measured from
      that key; on an empty password it changes nothing. */
  lemma BackspaceUndoesLast(s: CaptureState, c: char, t1: real, t2: real)
    ensures var typed := Step(s, Typed(c), t1);
      Step(typed, Backspace, t2) == CaptureState(s.password, s.timings, t1)
    ensures |s.password| == 0 ==> Step(s, Backspace, t2) == s
  {
    DropLastAppend(s.password, c);
    DropLastAppend(s.timings, t1 - s.lastTime);
  }

  /** Nothing after the first Enter is read. */
  lemma {:induction false} EnterEndsCapture(platform: Platform, s: CaptureState,
                                            before: seq<KeyEvent>, enter: KeyEvent, after: seq<KeyEvent>)
    requires Classify(platform, enter.key) == Enter
    ensures Run(platform, s, before + [enter] + after) == Run(platform, s, before + [enter])
    decreases |before|
  {
    if |before| > 0 {
      var a := Classify(platform, before[0].key);
      assert (before + [enter] + after)[1..] == before[1..] + [enter] + after;
      assert (before + [enter])[1..] == before[1..] + [enter];
      if a.Backspace? || a.Typed? || a.Ignored? {
        EnterEndsCapture(platform, Step(s, a, before[0].time), before[1..], enter, after);
      }
    }
  }

  /** Key times that never go backwards, starting no earlier than the prompt. */
  predicate Monotone(start: real, events: seq<KeyEvent>) {
    && (forall i :: 0 <= i < |events| ==> start <= events[i].time)
    && (forall i, j :: 0 <= i < j < |events| ==> events[i].time <= events[j].time)
  }

  lemma {:induction false} RunNonNegative(platform: Platform, s: CaptureState, events: seq<KeyEvent>)
    requires Stats.NonNegative(s.timings)
    requires Monotone(s.lastTime, events)
    ensures Run(platform, s, events).Captured? ==> Stats.NonNegative(Run(platform, s, events).timings)
    decreases |events|
  {
    if |events| > 0 {
      var a := Classify(platform, events[0].key);
      if a.Backspace? || a.Typed? || a.Ignored? {
        var s' := Step(s, a, events[0].time);
        assert Stats.NonNegative(s'.timings) by {
          if a.Backspace? && |s.password| > 0 && |s.timings| > 0 {
            assert forall i :: 0 <= i < |s'.timings| ==> s'.timings[i] == s.timings[i];
          }
        }
        assert s'.lastTime <= events[0].time || s'.lastTime == s.lastTime;
        RunNonNegative(platform, s', events[1..]);
      }
    }
  }

  /** Keys read at times that never go backwards give non-negative intervals. */
  lemma CapturedNonNegative(platform: Platform, start: real, events: seq<KeyEvent>)
    requires Monotone(start, events)
    ensures var c := CaptureTiming(platform, start, events);
      c.Captured? ==> Stats.NonNegative(c.timings)
  {
    RunNonNegative(platform, Start(start), events);
  }

  /** A password typed without corrections: every key is recorded, and each
      interval runs from the previous key, the first one from the prompt. */
  lemma PlainTyping(platform: Platform, start: real, events: seq<KeyEvent>)
    requires forall i :: 0 <= i < |events| ==> Classify(platform, events[i].key).Typed?
    ensures CaptureTiming(platform, start, events) == Captured(Keys(events), Gaps(start, events))
  {
    PlainTypingFrom(platform, Start(start), events);
    assert "" + Keys(events) == Keys(events);
    assert [] + Gaps(start, events) == Gaps(start, events);
  }

  /** The keys of `events`, in order. */
  function Keys(events: seq<KeyEvent>): (keys: string)
    ensures |keys| == |events|
  {
    seq(|events|, i requires 0 <= i < |events| => events[i].key)
  }

  /** The time from each event to the one before it, the first measured from `last`. */
  function Gaps(last: real, events: seq<KeyEvent>): (gaps: seq<real>)
    ensures |gaps| == |events|
  {
    seq(|events|, i requires 0 <= i < |events| =>
      events[i].time - (if i == 0 then last else events[i - 1].time))
  }

  lemma KeysCons(events: seq<KeyEvent>)
    requires |events| > 0
    ensures Keys(events) == [events[0].key] + Keys(events[1..])
  {
  }

  lemma GapsCons(last: real, events: seq<KeyEvent>)
    requires |events| > 0
    ensures Gaps(last, events) == [events[0].time - last] + Gaps(events[0].time, events[1..])
  {
    var g, g' := Gaps(last, events), Gaps(events[0].time, events[1..]);
    forall i | 1 <= i < |events| ensures g[i] == g'[i - 1] {
      if i > 1 {
        assert events[1..][i - 2] == events[i - 1];
      }
    }
  }

  lemma {:induction false} PlainTypingFrom(platform: Platform, s: CaptureState, events: seq<KeyEvent>)
    requires forall i :: 0 <= i < |events| ==> Classify(platform, events[i].key).Typed?
    ensures Run(platform, s, events) == Captured(s.password + Keys(events), s.timings + Gaps(s.lastTime, events))
    decreases |events|
  {
    if |events| == 0 {
      assert Keys(events) == [] && Gaps(s.lastTime, events) == [];
      assert s.password + [] == s.password && s.timings + [] == s.timings;
    } else {
      var e, rest := events[0], events[1..];
      var s' := CaptureState(s.password + [e.key], s.timings + [e.time - s.lastTime], e.time);
      assert forall i :: 0 <= i < |rest| ==> Classify(platform, rest[i].key).Typed? by {
        forall i | 0 <= i < |rest| ensures Classify(platform, rest[i].key).Typed? {
          assert rest[i] == events[i + 1];
        }
      }
      PlainTypingFrom(platform, s', rest);
      PlainTypingStep(platform, s, events);
    }
  }

  /** A typing without corrections ended by Enter captures exactly the typed
      keys and the intervals between them, the first measured from the prompt. */
  lemma PlainTypingThenEnter(platform: Platform, start: real, events: seq<KeyEvent>, enter: KeyEvent)
    requires forall i :: 0 <= i < |events| ==> Classify(platform, events[i].key).Typed?
    requires Classify(platform, enter.key).Enter?
    ensures CaptureTiming(platform, start, events + [enter]) == Captured(Keys(events), Gaps(start, events))
  {
    TypedThenEnter(platform, Start(start), events, enter);
    PlainTyping(platform, start, events);
  }

  /** Enter after typed keys returns what those keys built up. */
  lemma {:induction false} TypedThenEnter(platform: Platform, s: CaptureState, events: seq<KeyEvent>, enter: KeyEvent)
    requires forall i :: 0 <= i < |events| ==> Classify(platform, events[i].key).Typed?
    requires Classify(platform, enter.key).Enter?
    ensures Run(platform, s, events + [enter]) == Run(platform, s, events)
    decreases |events|
  {
    if |events| > 0 {
      var a := Classify(platform, events[0].key);
      var rest := events[1..];
      assert (events + [enter])[1..] == rest + [enter];
      assert forall i :: 0 <= i < |rest| ==> Classify(platform, rest[i].key).Typed? by {
        forall i | 0 <= i < |rest| ensures Classify(platform, rest[i].key).Typed? {
          assert rest[i] == events[i + 1];
        }
      }
      TypedThenEnter(platform, Step(s, a, events[0].time), rest, enter);
    }
  }

  /** One typed key, then the rest of a typing without corrections. */
  lemma PlainTypingStep(platform: Platform, s: CaptureState, events: seq<KeyEvent>)
    requires |events| > 0 && Classify(platform, events[0].key).Typed?
    requires var e := events[0];
      var s' := CaptureState(s.password + [e.key], s.timings + [e.time - s.lastTime], e.time);
      Run(platform, s', events[1..]) == Captured(s'.password + Keys(events[1..]), s'.timings + Gaps(e.time, events[1..]))
    ensures Run(platform, s, events) == Captured(s.password + Keys(events), s.timings + Gaps(s.lastTime, events))
  {
    var e, rest := events[0], events[1..];
    var s' := CaptureState(s.password + [e.key], s.timings + [e.time - s.lastTime], e.time);
    assert Run(platform, s, events) == Run(platform, s', rest) by {
      RunAdvance(platform, s, events, 0);
      assert events[0..] == events;
      TypedStep(platform, s, e);
    }
    assert s.password + Keys(events) == s'.password + Keys(rest) by {
      KeysCons(events);
      assert s.password + ([e.key] + Keys(rest)) == (s.password + [e.key]) + Keys(rest);
    }
    assert s.timings + Gaps(s.lastTime, events) == s'.timings + Gaps(e.time, rest) by {
      GapsCons(s.lastTime, events);
      assert s.timings + ([e.time - s.lastTime] + Gaps(e.time, rest))
        == (s.timings + [e.time - s.lastTime]) + Gaps(e.time, rest);
    }
  }

  /** A typed key appends itself and its interval and becomes the last key. */
  lemma TypedStep(platform: Platform, s: CaptureState, e: KeyEvent)
    requires Classify(platform, e.key).Typed?
    ensures Step(s, Classify(platform, e.key), e.time)
      == CaptureState(s.password + [e.key], s.timings + [e.time - s.lastTime], e.time)
  {
  }
}
