/**
 * StatefulStreamer (moon/core/base.py): a cursor with one item of lookahead over a
 * source iterator. The iterator is modelled as the sequence it would produce, `src`,
 * and the number of items pulled from it so far, `pulled`. A source that is used up
 * answers None where Python raises StopIteration.
 */
module Cursor {
  import opened Wrappers
  import opened Errors

  /**
   * A generator stage driving a cursor, as far as it got: what it yielded (`items`) and
   * how it stopped (`end`): normally, with the cursor on the given index, or by raising.
   */
  datatype Run<T> = Run(items: seq<T>, end: Result<nat, ErrorKind>)

  /** A generator as the stage after it sees it: the items it yields, then the exception it raises, if any. */
  datatype Stream<T> = Stream(items: seq<T>, failure: Option<ErrorKind>)

  function Yielded<T>(r: Run<T>): (s: Stream<T>)
    ensures s.items == r.items && (s.failure.None? <==> r.end.Ok?)
    ensures r.end.Err? ==> s.failure == Some(r.end.error)
  {
    Stream(r.items, if r.end.Err? then Some(r.end.error) else None)
  }

  /**
   * What a consumer gets when it pulls past the last item: the producer's own exception,
   * or else StopIteration, which the consumer turns into `onStop`.
   */
  function Exhausted(failure: Option<ErrorKind>, onStop: ErrorKind): (e: ErrorKind)
    ensures failure.Some? ==> e == failure.value
    ensures failure.None? ==> e == onStop
  {
    if failure.Some? then failure.value else onStop
  }

  class Streamer<T> {
    const src: seq<T>
    var pulled: nat
    var current: Option<T>
    var lookahead: Option<T>

    /** The lookahead, when present, is the last item pulled from the source. */
    ghost predicate Valid()
      reads this
    {
      pulled <= |src| && (lookahead.Some? ==> 1 <= pulled && lookahead.value == src[pulled - 1])
    }

    /** The number of source items handed out so far: pulled items minus the cached lookahead. */
    ghost function Consumed(): nat
      reads this
      requires Valid()
    {
      if lookahead.Some? then pulled - 1 else pulled
    }

    /** The cursor stands on src[i]: read() answers src[i] and the next item is src[i + 1]. */
    ghost predicate At(i: nat)
      reads this
      requires Valid()
    {
      i < |src| && Consumed() == i + 1 && current == Some(src[i])
    }

    /** Nothing read, peeked or pulled yet. */
    ghost predicate Fresh()
      reads this
    {
      pulled == 0 && current.None? && lookahead.None?
    }

    constructor (s: seq<T>)
      ensures Valid() && Fresh() && src == s
    {
      src := s;
      pulled := 0;
      current := None;
      lookahead := None;
    }

    /**
     * next(): the cached lookahead if there is one, else the next source item. Either way
     * it is the first item not yet handed out. On an exhausted source nothing changes.
     */
    method Next() returns (r: Option<T>)
      requires Valid()
      modifies this
      ensures Valid()
      ensures old(Consumed()) < |src| ==>
        r == Some(src[old(Consumed())]) && current == r && lookahead.None? && Consumed() == old(Consumed()) + 1
      ensures old(Consumed()) == |src| ==> r.None? && unchanged(this)
    {
      if lookahead.Some? {
        current := lookahead;
        lookahead := None;
      } else if pulled < |src| {
        current := Some(src[pulled]);
        pulled := pulled + 1;
      } else {
        return None;
      }
      r := current;
    }

    /**
     * read(): the current item; only when there is none yet does it take the lookahead
     * (leaving it cached, so the following next() returns it again) or pull one item.
     */
    method Read() returns (r: Option<T>)
      requires Valid()
      modifies this
      ensures Valid()
      ensures old(current).Some? ==> r == old(current) && unchanged(this)
      ensures old(current).None? && old(lookahead).Some? ==>
        r == old(lookahead) && current == r && lookahead == old(lookahead) && pulled == old(pulled)
      ensures old(current).None? && old(lookahead).None? && old(pulled) < |src| ==>
        r == Some(src[old(pulled)]) && current == r && lookahead.None? && pulled == old(pulled) + 1
      ensures old(current).None? && old(lookahead).None? && old(pulled) == |src| ==>
        r.None? && unchanged(this)
    {
      if current.None? {
        if lookahead.Some? {
          current := lookahead;
        } else if pulled < |src| {
          current := Some(src[pulled]);
          pulled := pulled + 1;
        } else {
          return None;
        }
      }
      r := current;
    }

    /**
     * peek(): the first item not yet handed out, without handing it out; None at the end
     * of the source. The current item and the hand-out position do not change.
     */
    method Peek() returns (r: Option<T>)
      requires Valid()
      modifies this
      ensures Valid()
      ensures current == old(current) && Consumed() == old(Consumed())
      ensures r == lookahead
      ensures r == if Consumed() < |src| then Some(src[Consumed()]) else None
      ensures old(lookahead).Some? ==> unchanged(this)
    {
      if lookahead.None? && pulled < |src| {
        lookahead := Some(src[pulled]);
        pulled := pulled + 1;
      }
      r := lookahead;
    }
  }

  /** Two peeks in a row on a fresh cursor see the same first item and pull at most once. */
  method PeekTwice<T>(s: seq<T>) returns (first: Option<T>, second: Option<T>, pulledCount: nat)
    ensures first == second
    ensures first == if |s| > 0 then Some(s[0]) else None
    ensures pulledCount <= 1 && (pulledCount == 1 <==> |s| > 0)
  {
    var c := new Streamer(s);
    first := c.Peek();
    second := c.Peek();
    pulledCount := c.pulled;
  }

  /** After `skip` calls of next(), a peek and then a next() return the same item, src[skip]. */
  method NextAfterPeek<T>(s: seq<T>, skip: nat) returns (peeked: Option<T>, got: Option<T>)
    ensures peeked == got
    ensures got == if skip < |s| then Some(s[skip]) else None
  {
    var c := new Streamer(s);
    var k := 0;
    while k < skip
      invariant c.Valid() && c.src == s
      invariant k <= skip && c.Consumed() == if k < |s| then k else |s|
    {
      var _ := c.Next();
      k := k + 1;
    }
    peeked := c.Peek();
    got := c.Next();
  }

  /**
   * The read() quirk: on a fresh cursor, peek() then read() returns the first item but
   * leaves it cached as lookahead, so the following next() returns that item a second time.
   */
  method PeekReadNext<T>(s: seq<T>) returns (peeked: Option<T>, read: Option<T>, next: Option<T>)
    requires |s| > 0
    ensures peeked == Some(s[0]) && read == Some(s[0]) && next == Some(s[0])
  {
    var c := new Streamer(s);
    peeked := c.Peek();
    read := c.Read();
    next := c.Next();
  }

  /** read() does not advance: two reads agree, and a read after next() returns what next() did. */
  method ReadIsStable<T>(s: seq<T>, skip: nat) returns (got: Option<T>, read1: Option<T>, read2: Option<T>)
    requires skip < |s|
    ensures got == Some(s[skip]) && read1 == got && read2 == got
  {
    var c := new Streamer(s);
    var k := 0;
    got := c.Next();
    while k < skip
      invariant c.Valid() && c.src == s && k <= skip
      invariant c.At(k) && got == Some(s[k])
    {
      got := c.Next();
      k := k + 1;
    }
    read1 := c.Read();
    read2 := c.Read();
  }

  /**
   * Successive next() calls hand out the source items in order, none skipped or repeated,
   * whatever peeks are interleaved with them (`peekFirst[k]` asks for a peek before the k-th next()).
   */
  method DrainWithPeeks<T>(s: seq<T>, peekFirst: seq<bool>) returns (out: seq<T>)
    ensures out == s
  {
    var c := new Streamer(s);
    out := [];
    var k := 0;
    while true
      invariant c.Valid() && c.src == s
      invariant c.Consumed() == |out| && out == s[..|out|]
      decreases |s| - |out|
    {
      if k < |peekFirst| && peekFirst[k] {
        var _ := c.Peek();
      }
      var r := c.Next();
      if r.None? {
        return;
      }
      out := out + [r.value];
      k := k + 1;
    }
  }
}
