/** Sequences of moves that are possible one after the other, and what they make of a call. */
module EvsMoves {
  import opened EvsProtocol
  import opened EvsHistory
  import opened Wrappers

  /** Each move is enabled when its turn comes. */
  predicate Legal(s: State, moves: seq<Event>)
    decreases |moves|
  {
    moves == [] || (Enabled(s, moves[0]) && Legal(Next(s, moves[0]), moves[1..]))
  }

  function After(s: State, moves: seq<Event>): State
    requires Legal(s, moves)
    decreases |moves|
  {
    if moves == [] then s else After(Next(s, moves[0]), moves[1..])
  }

  /** What a call has returned, if it has. */
  function ReplyOf(s: State, c: CallId): Option<Reply> {
    if c in s.calls && s.calls[c].pc.Returned? then Some(s.calls[c].pc.reply) else None
  }

  lemma OneMove(s: State, e: Event, rest: seq<Event>)
    ensures Legal(s, [e] + rest) <==> Enabled(s, e) && Legal(Next(s, e), rest)
    ensures Legal(s, [e] + rest) ==> After(s, [e] + rest) == After(Next(s, e), rest)
  {
    assert ([e] + rest)[1..] == rest;
  }

  lemma {:induction false} MovesInTwo(s: State, first: seq<Event>, rest: seq<Event>)
    ensures Legal(s, first + rest) <==> Legal(s, first) && Legal(After(s, first), rest)
    ensures Legal(s, first + rest) ==> After(s, first + rest) == After(After(s, first), rest)
    decreases |first|
  {
    if first == [] {
      assert first + rest == rest;
    } else {
      assert (first + rest)[0] == first[0] && (first + rest)[1..] == first[1..] + rest;
      if Enabled(s, first[0]) { MovesInTwo(Next(s, first[0]), first[1..], rest); }
    }
  }

  /** The events of a run, from any instant on, are such moves. */
  lemma {:induction false} RunMoves(r: Run, i: nat)
    requires r.Valid() && i <= |r.events|
    ensures Legal(r.states[i], r.events[i..]) && After(r.states[i], r.events[i..]) == r.Last()
    decreases |r.events| - i
  {
    if i == |r.events| {
    } else {
      assert r.StepAt(i);
      assert r.events[i..][1..] == r.events[i + 1..];
      RunMoves(r, i + 1);
    }
  }

  /** Whatever happens later, a call that has returned keeps its reply. */
  lemma {:induction false} ReplyStays(s: State, moves: seq<Event>, c: CallId)
    requires Legal(s, moves) && ReplyOf(s, c).Some?
    ensures ReplyOf(After(s, moves), c) == ReplyOf(s, c)
    decreases |moves|
  {
    if moves == [] {
    } else {
      SameCall(s, moves[0], c);
      ReplyStays(Next(s, moves[0]), moves[1..], c);
    }
  }

  lemma SameReplyWhenFurther(s: State, some: seq<Event>, all: seq<Event>, c: CallId)
    requires Legal(s, all) && some <= all
    ensures Legal(s, some)
    ensures ReplyOf(After(s, some), c).Some? ==> ReplyOf(After(s, all), c) == ReplyOf(After(s, some), c)
  {
    assert all == some + all[|some|..];
    MovesInTwo(s, some, all[|some|..]);
    if ReplyOf(After(s, some), c).Some? { ReplyStays(After(s, some), all[|some|..], c); }
  }

  /** Two ways of going on from s, of which one begins like the other, do not differ in what they return. */
  lemma SameReply(s: State, done: seq<Event>, rest: seq<Event>, moves: seq<Event>, c: CallId)
    requires Legal(s, done + rest) && moves <= done + rest
    ensures Legal(s, done) && Legal(s, moves)
    ensures ReplyOf(After(s, done), c).Some? && ReplyOf(After(s, moves), c).Some? ==>
              ReplyOf(After(s, done), c) == ReplyOf(After(s, moves), c)
  {
    SameReplyWhenFurther(s, done, done + rest, c);
    SameReplyWhenFurther(s, moves, done + rest, c);
  }
}
