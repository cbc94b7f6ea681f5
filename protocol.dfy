/** The Observable/Observer notification protocol.

    An observer receives zero or more `Next` notifications, optionally
    followed by one terminal notification (`Error` or `Completed`), and
    nothing after the terminal one. A sequence of notifications that an
    observer has received is called a trace.
 */
module Protocol {

  /** One call an observable makes on its observer:
      `on_next(item)`, `on_error(error)` or `on_completed()`. */
  datatype Event<T, E> = Next(item: T) | Error(error: E) | Completed

  /** `on_error` and `on_completed` end the stream. */
  predicate IsTerminal<T, E>(e: Event<T, E>) {
    !e.Next?
  }

  /** The protocol as a grammar: Next* followed by at most one terminal event. */
  predicate WellFormed<T, E>(t: seq<Event<T, E>>) {
    |t| == 0
    || (t[0].Next? && WellFormed(t[1..]))
    || (|t| == 1 && IsTerminal(t[0]))
  }

  /** The trace has ended: its last event is terminal. */
  predicate Terminated<T, E>(t: seq<Event<T, E>>) {
    |t| > 0 && IsTerminal(t[|t| - 1])
  }

  /** Number of terminal events in a trace. */
  function TerminalCount<T, E>(t: seq<Event<T, E>>): nat {
    if |t| == 0 then 0
    else (if IsTerminal(t[0]) then 1 else 0) + TerminalCount(t[1..])
  }

  /** The items carried by the `Next` events of a trace, in order. */
  function Items<T, E>(t: seq<Event<T, E>>): seq<T> {
    if |t| == 0 then []
    else (if t[0].Next? then [t[0].item] else []) + Items(t[1..])
  }

  /** The protocol as the observer sees it, stated independently of the
      grammar: at most one terminal call, and no `on_next` after a
      terminal call. */
  ghost predicate RespectsProtocol<T, E>(t: seq<Event<T, E>>) {
    TerminalCount(t) <= 1
    && forall i, j :: 0 <= i < j < |t| && IsTerminal(t[i]) ==> !t[j].Next?
  }

  lemma {:induction false} TerminalCountAppend<T, E>(a: seq<Event<T, E>>, b: seq<Event<T, E>>)
    ensures TerminalCount(a + b) == TerminalCount(a) + TerminalCount(b)
  {
    if |a| == 0 {
      assert a + b == b;
    } else {
      assert (a + b)[1..] == a[1..] + b;
      TerminalCountAppend(a[1..], b);
    }
  }

  lemma {:induction false} ItemsAppend<T, E>(a: seq<Event<T, E>>, b: seq<Event<T, E>>)
    ensures Items(a + b) == Items(a) + Items(b)
  {
    if |a| == 0 {
      assert a + b == b;
    } else {
      assert (a + b)[1..] == a[1..] + b;
      ItemsAppend(a[1..], b);
    }
  }

  /** The grammar and the observer's view of the protocol agree, in both directions. */
  lemma {:induction false} WellFormedIff<T, E>(t: seq<Event<T, E>>)
    ensures WellFormed(t) <==> RespectsProtocol(t)
  {
    if |t| == 0 {
    } else if t[0].Next? {
      var u := t[1..];
      WellFormedIff(u);
      assert TerminalCount(t) == TerminalCount(u);
      // Every pair of positions in t beyond 0 is a pair of positions in u.
      if RespectsProtocol(u) {
        forall i, j | 0 <= i < j < |t| && IsTerminal(t[i])
          ensures !t[j].Next?
        {
          assert i > 0;
          assert u[i - 1] == t[i] && u[j - 1] == t[j];
        }
      }
      if RespectsProtocol(t) {
        forall i, j | 0 <= i < j < |u| && IsTerminal(u[i])
          ensures !u[j].Next?
        {
          assert u[i] == t[i + 1] && u[j] == t[j + 1];
        }
      }
    } else {
      if |t| > 1 {
        // A second event after a terminal one breaks one of the two conditions.
        assert t[1..][0] == t[1];
        if IsTerminal(t[1]) {
          assert TerminalCount(t) >= 2;
        } else {
          assert !(IsTerminal(t[0]) ==> !t[1].Next?);
        }
      } else {
        assert TerminalCount(t[1..]) == 0;
      }
    }
  }

  /** Appending a well-formed trace to an unfinished well-formed trace keeps it
      well-formed; if the appended part ends the stream, so does the whole. */
  lemma {:induction false} WellFormedAppend<T, E>(a: seq<Event<T, E>>, b: seq<Event<T, E>>)
    requires WellFormed(a) && !Terminated(a) && WellFormed(b)
    ensures WellFormed(a + b)
    ensures Terminated(b) ==> Terminated(a + b)
  {
    if |a| == 0 {
      assert a + b == b;
    } else {
      assert a[0].Next?;
      assert (a + b)[0] == a[0];
      assert (a + b)[1..] == a[1..] + b;
      WellFormedAppend(a[1..], b);
    }
    if |b| > 0 {
      assert (a + b)[|a + b| - 1] == b[|b| - 1];
    }
  }
}
