/** The discovery tick of the content script (`attachTranslationListeners`):
    every two seconds it visits the `.copyable-text` bubbles not yet marked
    `wt-processed`, marks each one, resolves its message container and, when
    there is one, attaches the double-click handler and the hover indicator. */
module Discovery {
  import opened Wrappers

  /** One `.copyable-text` bubble. The three container candidates are the
      results of `closest('[data-testid="msg-container"]')`,
      `closest('.message-in, .message-out')` and `parentElement`; `attached`
      lists the containers that received a handler and hover indicator for
      this bubble, in order. */
  datatype Bubble = Bubble(
    processed: bool,
    msgContainer: Option<nat>,
    messageInOut: Option<nat>,
    parent: Option<nat>,
    attached: seq<nat>)

  /** The first candidate that exists, in the fixed order. */
  function ResolveContainer(b: Bubble): Option<nat> {
    if b.msgContainer.Some? then b.msgContainer
    else if b.messageInOut.Some? then b.messageInOut
    else b.parent
  }

  /** One bubble of the `forEach`: marked first, then instrumented if its
      container resolves. Processed bubbles are not selected at all. */
  function Visit(b: Bubble): Bubble {
    if b.processed then b
    else
      var marked := b.(processed := true);
      match ResolveContainer(b)
      case None => marked
      case Some(c) => marked.(attached := b.attached + [c])
  }

  /** One tick over the bubbles in document order: every bubble ends up
      processed; a bubble processed before is left exactly as it was; a new
      one is instrumented once, on its resolved container, or not at all when
      none resolves. */
  function Tick(bubbles: seq<Bubble>): (r: seq<Bubble>)
    ensures |r| == |bubbles|
    ensures forall i :: 0 <= i < |r| ==> r[i].processed
    ensures forall i :: 0 <= i < |r| && bubbles[i].processed ==> r[i] == bubbles[i]
    ensures forall i :: 0 <= i < |r| && !bubbles[i].processed ==>
      && r[i].msgContainer == bubbles[i].msgContainer
      && r[i].messageInOut == bubbles[i].messageInOut
      && r[i].parent == bubbles[i].parent
      && (ResolveContainer(bubbles[i]).None? ==> r[i].attached == bubbles[i].attached)
      && (ResolveContainer(bubbles[i]).Some? ==>
            r[i].attached == bubbles[i].attached + [ResolveContainer(bubbles[i]).value])
  {
    if |bubbles| == 0 then []
    else [Visit(bubbles[0])] + Tick(bubbles[1..])
  }

  /** Repeating a tick changes nothing. */
  lemma TickIdempotent(bubbles: seq<Bubble>)
    ensures Tick(Tick(bubbles)) == Tick(bubbles)
  {
  }

  /** `n` ticks over a page whose bubbles do not change in between. */
  function Ticks(n: nat, bubbles: seq<Bubble>): (r: seq<Bubble>)
    ensures |r| == |bubbles|
    decreases n
  {
    if n == 0 then bubbles else Ticks(n - 1, Tick(bubbles))
  }

  /** Any positive number of ticks over a static page does what one tick does. */
  lemma {:induction false} TicksAreOneTick(n: nat, bubbles: seq<Bubble>)
    requires n >= 1
    ensures Ticks(n, bubbles) == Tick(bubbles)
    decreases n
  {
    if n > 1 {
      TicksAreOneTick(n - 1, Tick(bubbles));
      TickIdempotent(bubbles);
    }
  }

  /** Bubbles that the page has just rendered: unmarked and uninstrumented. */
  predicate Fresh(bubbles: seq<Bubble>) {
    forall i :: 0 <= i < |bubbles| ==> !bubbles[i].processed && bubbles[i].attached == []
  }

  /** However many ticks run, a fresh bubble gets its handler and hover
      indicator at most once, on the first container of the fallback order;
      a bubble whose container did not resolve is never instrumented. */
  lemma AttachedAtMostOnce(n: nat, bubbles: seq<Bubble>)
    requires Fresh(bubbles)
    ensures var r := Ticks(n, bubbles);
      forall i :: 0 <= i < |r| ==>
        && |r[i].attached| <= 1
        && (n >= 1 && ResolveContainer(bubbles[i]).Some? ==> r[i].attached == [ResolveContainer(bubbles[i]).value])
        && (ResolveContainer(bubbles[i]).None? ==> r[i].attached == [])
  {
    if n >= 1 {
      TicksAreOneTick(n, bubbles);
    }
  }

  /** Bubbles rendered after a tick are picked up by the next one, and the
      earlier ones are not visited again. */
  lemma {:induction false} TickOnlyVisitsNew(earlier: seq<Bubble>, later: seq<Bubble>)
    ensures Tick(Tick(earlier) + later) == Tick(earlier) + Tick(later)
  {
    TickAppend(Tick(earlier), later);
    TickIdempotent(earlier);
  }

  lemma {:induction false} TickAppend(a: seq<Bubble>, b: seq<Bubble>)
    ensures Tick(a + b) == Tick(a) + Tick(b)
  {
    if |a| == 0 {
      assert a + b == b;
    } else {
      assert (a + b)[1..] == a[1..] + b;
      TickAppend(a[1..], b);
    }
  }
}
