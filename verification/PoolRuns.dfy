/**
  A pool driven by any sequence of claims, writes into what was claimed, and clears, against a plain
  list of separate claims.
 */
module PoolRuns {
  import opened PoolMemory

  /** A write goes to element `offset` of the `span`-th claim since the last clear; one outside is skipped. */
  datatype Op<T> = ClaimOp(count: nat) | WriteOp(span: nat, offset: nat, v: T) | ClearOp

  datatype Out<T> = Claimed(idx: nat, contents: seq<T>) | Refused(err: int) | Done

  /** The claims that stand, each with what its elements hold, in the order they were made. */
  type Claims<T> = seq<seq<T>>

  function Total<T>(claims: Claims<T>): nat {
    if claims == [] then 0 else Total(claims[..|claims| - 1]) + |claims[|claims| - 1]|
  }

  /** All of it, one claim after the other. */
  function Flat<T>(claims: Claims<T>): seq<T> {
    if claims == [] then [] else Flat(claims[..|claims| - 1]) + claims[|claims| - 1]
  }

  /** What a list of separate claims, each starting out zero, is after one call. */
  function Apply<T>(claims: Claims<T>, zero: T, op: Op<T>, out: Out<T>): Claims<T> {
    match op
    case ClaimOp(count) => if out.Claimed? then claims + [seq(count, _ => zero)] else claims
    case WriteOp(span, offset, v) =>
      if span < |claims| && offset < |claims[span]| then claims[span := claims[span][offset := v]] else claims
    case ClearOp => []
  }

  /** A claim that is answered gets the elements behind all that stand, and they read as zero. */
  predicate Answers<T(==)>(claims: Claims<T>, zero: T, op: Op<T>, out: Out<T>) {
    match op
    case ClaimOp(count) => out == Claimed(Total(claims), seq(count, _ => zero)) || (out.Refused? && out.err < 0)
    case _ => out == Done
  }

  function ClaimsAfter<T>(zero: T, ops: seq<Op<T>>, outs: seq<Out<T>>): Claims<T>
    requires |ops| == |outs|
  {
    if ops == [] then []
    else Apply(ClaimsAfter(zero, ops[..|ops| - 1], outs[..|outs| - 1]), zero, ops[|ops| - 1], outs[|outs| - 1])
  }

  ghost predicate Behaves<T>(zero: T, ops: seq<Op<T>>, outs: seq<Out<T>>) {
    && |outs| == |ops|
    && forall i :: 0 <= i < |ops| ==> Answers(ClaimsAfter(zero, ops[..i], outs[..i]), zero, ops[i], outs[i])
  }

  /** The pool's memory holds exactly the claims, back to back. */
  ghost predicate Matches<T>(claims: Claims<T>, spans: seq<Span>, handed: seq<T>) {
    && |spans| == |claims| && Flat(claims) == handed
    && forall i :: 0 <= i < |spans| ==> spans[i] == Span(Total(claims[..i]), |claims[i]|)
  }

  lemma {:induction false} FlatTotal<T>(claims: Claims<T>)
    ensures |Flat(claims)| == Total(claims)
  {
    if claims != [] {
      FlatTotal(claims[..|claims| - 1]);
    }
  }

  lemma MatchesAppend<T>(claims: Claims<T>, spans: seq<Span>, handed: seq<T>, c: seq<T>)
    requires Matches(claims, spans, handed)
    ensures Matches(claims + [c], spans + [Span(|handed|, |c|)], handed + c)
  {
    FlatTotal(claims);
    var more, spans' := claims + [c], spans + [Span(|handed|, |c|)];
    assert more[..|claims|] == claims;
    forall i | 0 <= i < |spans'| ensures spans'[i] == Span(Total(more[..i]), |more[i]|) {
      assert more[..i] == claims[..i];
      if i == |claims| {
        assert claims[..i] == claims;
      }
    }
  }

  /** Writing into one claim is writing into one element of the whole, and into no other claim. */
  lemma {:induction false} FlatUpdate<T>(claims: Claims<T>, s: nat, o: nat, v: T)
    requires s < |claims| && o < |claims[s]|
    ensures var k := Total(claims[..s]) + o;
            k < |Flat(claims)| && Flat(claims[s := claims[s][o := v]]) == Flat(claims)[k := v]
    decreases |claims|
  {
    var n := |claims| - 1;
    var claims' := claims[s := claims[s][o := v]];
    FlatTotal(claims[..n]);
    if s == n {
      assert claims'[..n] == claims[..n];
    } else {
      FlatUpdate(claims[..n], s, o, v);
      assert claims'[..n] == claims[..n][s := claims[s][o := v]] && claims[..n][..s] == claims[..s];
    }
  }

  lemma {:induction false} TotalUpdate<T>(claims: Claims<T>, s: nat, o: nat, v: T, i: nat)
    requires s < |claims| && o < |claims[s]| && i <= |claims|
    ensures Total(claims[s := claims[s][o := v]][..i]) == Total(claims[..i])
    decreases i
  {
    if i > 0 {
      TotalUpdate(claims, s, o, v, i - 1);
      var claims' := claims[s := claims[s][o := v]];
      assert claims'[..i][..i - 1] == claims'[..i - 1] && claims[..i][..i - 1] == claims[..i - 1];
    }
  }

  lemma MatchesUpdate<T>(claims: Claims<T>, spans: seq<Span>, handed: seq<T>, s: nat, o: nat, v: T)
    requires Matches(claims, spans, handed) && s < |claims| && o < |claims[s]|
    ensures spans[s].idx + o < |handed|
    ensures Matches(claims[s := claims[s][o := v]], spans, handed[spans[s].idx + o := v])
  {
    FlatUpdate(claims, s, o, v);
    forall i | 0 <= i < |spans|
      ensures spans[i] == Span(Total(claims[s := claims[s][o := v]][..i]), |claims[s := claims[s][o := v]][i]|)
    {
      TotalUpdate(claims, s, o, v, i);
    }
  }

  /** One call, by a client that remembers the spans it was given. */
  method Perform<T(==)>(p: Pool<T>, held: seq<Span>, op: Op<T>, ghost claims: Claims<T>) returns (out: Out<T>, held': seq<Span>)
    requires p.Valid() && held == p.spans && Matches(claims, held, p.memory[..p.free])
    modifies p, p.memory
    ensures p.Valid() && held' == p.spans && Answers(claims, p.zero, op, out)
    ensures Matches(Apply(claims, p.zero, op, out), held', p.memory[..p.free])
    ensures p.accessible >= old(p.accessible)
  {
    hide Tiles, Flat, Total;
    held' := held;
    match op {
      case ClaimOp(count) =>
        ghost var before := p.memory[..p.free];
        FlatTotal(claims);
        var err, idx := p.Claim(count);
        if err != 0 {
          return Refused(err), held;
        }
        var given := p.memory[idx..idx + count];
        assert given == seq(count, _ => p.zero);
        MatchesAppend(claims, held, before, given);
        assert p.memory[..p.free] == before + given;
        out, held' := Claimed(idx, given), held + [Span(idx, count)];
      case WriteOp(span, offset, v) =>
        if span < |held| && offset < held[span].count {
          MatchesUpdate(claims, held, p.memory[..p.free], span, offset, v);
          ghost var before := p.memory[..p.free];
          p.Write(held[span].idx + offset, v);
          assert p.memory[..p.free] == before[held[span].idx + offset := v];
        }
        out := Done;
      case ClearOp =>
        p.Clear();
        NoClaims(p.memory[..0]);
        out, held' := Done, [];
    }
  }

  lemma NoClaims<T>(handed: seq<T>)
    requires handed == []
    ensures Matches([], [], handed)
  {
  }

  lemma OneMoreCall<T>(zero: T, ops: seq<Op<T>>, outs: seq<Out<T>>, op: Op<T>, out: Out<T>)
    requires Behaves(zero, ops, outs) && Answers(ClaimsAfter(zero, ops, outs), zero, op, out)
    ensures Behaves(zero, ops + [op], outs + [out])
    ensures ClaimsAfter(zero, ops + [op], outs + [out]) == Apply(ClaimsAfter(zero, ops, outs), zero, op, out)
  {
    hide Answers, Apply;
    var ops', outs' := ops + [op], outs + [out];
    assert ops'[..|ops|] == ops && outs'[..|outs|] == outs;
    assert ClaimsAfter(zero, ops', outs') == Apply(ClaimsAfter(zero, ops, outs), zero, op, out);
    hide ClaimsAfter;
    forall i | 0 <= i < |ops'| ensures Answers(ClaimsAfter(zero, ops'[..i], outs'[..i]), zero, ops'[i], outs'[i]) {
      if i < |ops| {
        assert ops'[..i] == ops[..i] && outs'[..i] == outs[..i];
      }
    }
  }

  /**
    Over every sequence of claims, writes into claimed spans and clears, with the kernel refusing at
    any request: every claim that is answered reads as zero and is separate from all others, and a
    write changes its own claim only.
   */
  method Run<T(==)>(p: Pool<T>, ops: seq<Op<T>>) returns (outs: seq<Out<T>>)
    requires p.Valid() && p.free == 0 && p.spans == []
    modifies p, p.memory
    ensures p.Valid() && Behaves(p.zero, ops, outs)
    ensures p.memory[..p.free] == Flat(ClaimsAfter(p.zero, ops, outs))
  {
    outs := [];
    var held: seq<Span> := [];
    NoClaims(p.memory[..0]);
    ghost var claims: Claims<T> := [];
    for i := 0 to |ops|
      invariant p.Valid() && held == p.spans && Behaves(p.zero, ops[..i], outs)
      invariant claims == ClaimsAfter(p.zero, ops[..i], outs) && Matches(claims, held, p.memory[..p.free])
    {
      hide ClaimsAfter, Answers, Apply, Matches, Tiles;
      var out;
      out, held := Perform(p, held, ops[i], claims);
      OneMoreCall(p.zero, ops[..i], outs, ops[i], out);
      assert ops[..i + 1] == ops[..i] + [ops[i]];
      claims, outs := Apply(claims, p.zero, ops[i], out), outs + [out];
    }
    assert ops[..|ops|] == ops;
  }
}
