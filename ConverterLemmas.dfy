/** Properties of the converter's event semantics (`Converter.Step`, `Converter.Run`):
    exceptions stop the run, the closer stack follows the span nesting of the input, a
    balanced stretch of input leaves the stack as it found it, and each `</span>` writes
    the closers of its own `<span>`, last opened first. */
module ConverterLemmas {
  import opened Text
  import opened Converter

  /** The span depth after `events`, starting at depth `d`; None once a span end meets depth 0. */
  function Nesting(events: seq<Event>, d: nat): Option<nat>
    decreases |events|
  {
    if events == [] then Some(d)
    else
      var e := events[0];
      if e.StartTag? && IsSpan(e.tag) then Nesting(events[1..], d + 1)
      else if e.EndTag? && IsSpan(e.tag) then
        if d == 0 then None else Nesting(events[1..], d - 1)
      else Nesting(events[1..], d)
  }

  /** Every span end in `events` has its own span start in `events`, and vice versa. */
  predicate Balanced(events: seq<Event>) {
    Nesting(events, 0) == Some(0)
  }

  /** An event whose handler cannot raise on its own account: every attribute of a start tag
      has a value and every declaration of a span's style splits into a name and a value.
      Whether a span end raises depends on the stack, not on the event. */
  predicate WellFormed(e: Event) {
    e.StartTag? ==>
      if IsSpan(e.tag) then SpanOpening(e.attrs).fault == None else AttrsText(e.attrs).fault == None
  }

  /** Feeding `a` then `b` is feeding `a + b`; an exception in `a` means `b` is never seen. */
  lemma {:induction false} RunAppend(s: State, a: seq<Event>, b: seq<Event>)
    ensures var ra := Run(s, a);
      Run(s, a + b) == if ra.fault.Some? then ra else Run(ra.state, b)
    decreases |a|
  {
    if a == [] {
      assert a + b == b;
    } else {
      assert (a + b)[0] == a[0] && (a + b)[1..] == a[1..] + b;
      var r := Step(s, a[0]);
      if r.fault == None {
        RunAppend(r.state, a[1..], b);
      }
    }
  }

  /** On well-formed input the only exception is a span end with nothing to close: the run
      raises exactly when the span nesting, counted from the stack's height, goes below zero,
      and otherwise ends with one stack entry per span still open. */
  lemma {:induction false} RunNesting(s: State, events: seq<Event>)
    requires forall k :: 0 <= k < |events| ==> WellFormed(events[k])
    ensures var r := Run(s, events);
      (r.fault.Some? <==> Nesting(events, |s.stack|).None?) &&
      (r.fault.Some? ==> r.fault == Some(UnmatchedEnd)) &&
      (r.fault == None ==> Nesting(events, |s.stack|) == Some(|r.state.stack|))
    decreases |events|
  {
    if events != [] {
      var e := events[0];
      assert WellFormed(e);
      var r := Step(s, e);
      if e.EndTag? && IsSpan(e.tag) && s.stack == [] {
        assert r.fault == Some(UnmatchedEnd);
      } else {
        assert r.fault == None;
        assert forall k :: 0 <= k < |events[1..]| ==> events[1..][k] == events[k + 1];
        RunNesting(r.state, events[1..]);
      }
    }
  }

  /** A run that never closes more spans than it opened, counted from depth `d` above `base`,
      leaves the bottom `base` entries of the stack untouched. */
  lemma {:induction false} RunKeepsBase(s: State, events: seq<Event>, base: nat, d: nat)
    requires |s.stack| == base + d && Nesting(events, d).Some?
    requires Run(s, events).fault == None
    ensures var st := Run(s, events).state.stack;
      |st| == base + Nesting(events, d).value && st[..base] == s.stack[..base]
    decreases |events|
  {
    if events != [] {
      var e := events[0];
      var r := Step(s, e);
      if e.StartTag? && IsSpan(e.tag) {
        assert r.state.stack[..base] == s.stack[..base];
        RunKeepsBase(r.state, events[1..], base, d + 1);
      } else if e.EndTag? && IsSpan(e.tag) {
        assert r.state.stack[..base] == s.stack[..base];
        RunKeepsBase(r.state, events[1..], base, d - 1);
      } else {
        RunKeepsBase(r.state, events[1..], base, d);
      }
    }
  }

  /** A balanced stretch of input that raises nothing leaves the closer stack exactly as it found it. */
  lemma BalancedKeepsStack(s: State, events: seq<Event>)
    requires Balanced(events) && Run(s, events).fault == None
    ensures Run(s, events).state.stack == s.stack
  {
    RunKeepsBase(s, events, |s.stack|, 0);
  }

  /** The closers pushed by a span start, read back in the order `</span>` writes them:
      the closer of the last mark opened comes first. */
  lemma ClosingOrder(marks: seq<Markup>)
    ensures var c := Reverse(Closers(marks));
      |c| == |marks| && forall k :: 0 <= k < |marks| ==> c[k] == Closer(marks[|marks| - 1 - k])
  {
    ReverseLength(Closers(marks));
    forall k | 0 <= k < |marks|
      ensures Reverse(Closers(marks))[k] == Closer(marks[|marks| - 1 - k])
    {
      ReverseAt(Closers(marks), k);
    }
  }

  /** Three stretches of input that each raise nothing, run back to back. */
  lemma RunThree(s: State, first: Event, body: seq<Event>, last: Event, mid: State, inner: State, final: State)
    requires Step(s, first) == Stepped(mid, None)
    requires Run(mid, body) == Stepped(inner, None)
    requires Step(inner, last) == Stepped(final, None)
    ensures Run(s, [first] + body + [last]) == Stepped(final, None)
  {
    assert [first][1..] == [] && [last][1..] == [];
    RunAppend(s, [first], body);
    RunAppend(s, [first] + body, [last]);
  }

  /** A span end pops the entry on top of the stack and writes its closers. */
  lemma EndPops(s: State, endTag: string, below: seq<seq<string>>, entry: seq<string>)
    requires IsSpan(endTag) && s.stack == below + [entry]
    ensures Step(s, EndTag(endTag)) == Stepped(State(s.out + Concat(entry), below), None)
  {
    assert s.stack[..|s.stack| - 1] == below;
  }

  /** A span, a balanced body and the span's end: the start writes the openers of its markup,
      the end writes their closers in reverse, and the stack is back where it was. */
  lemma SpanClosesItsOwn(s: State, tag: string, attrs: seq<Attr>, body: seq<Event>, endTag: string)
    requires IsSpan(tag) && IsSpan(endTag) && SpanOpening(attrs).fault == None
    requires Balanced(body)
    requires Run(State(s.out + SpanOpening(attrs).written, s.stack + [Reverse(Closers(SpanOpening(attrs).marks))]), body).fault == None
    ensures var o := SpanOpening(attrs);
      var inner := Run(State(s.out + o.written, s.stack + [Reverse(Closers(o.marks))]), body).state;
      Run(s, [StartTag(tag, attrs)] + body + [EndTag(endTag)]) ==
        Stepped(State(inner.out + Concat(Reverse(Closers(o.marks))), s.stack), None)
  {
    var o := SpanOpening(attrs);
    var entry := Reverse(Closers(o.marks));
    var started := State(s.out + o.written, s.stack + [entry]);
    assert Step(s, StartTag(tag, attrs)) == Stepped(started, None);
    BalancedKeepsStack(started, body);
    var inner := Run(started, body).state;
    EndPops(inner, endTag, s.stack, entry);
    RunThree(s, StartTag(tag, attrs), body, EndTag(endTag), started, inner,
      State(inner.out + Concat(entry), s.stack));
  }

  /** A fresh converter raises on well-formed input exactly when some span end has no open span. */
  lemma FreshRunFaults(events: seq<Event>)
    requires forall k :: 0 <= k < |events| ==> WellFormed(events[k])
    ensures Run(State([], []), events).fault.Some? <==> Nesting(events, 0).None?
  {
    RunNesting(State([], []), events);
  }
}
