/**
  The two-click link tool of the scene, as a pure state machine over the
  pair (lBegin, lEnd). A click either hits a connection or hits nothing; the
  first hit remembers the connection, a second hit on a different connection
  asks for a link between the two and forgets both, and a second hit on the
  remembered connection is ignored. The type of connections is a parameter,
  so the same machine serves the class-level scene and the lemmas below.
 */
module LinkTool {
  import opened Wrappers

  /** `lBegin`/`lEnd`; `None` is the null pointer. */
  datatype LinkState<C> = LinkState(lBegin: Option<C>, lEnd: Option<C>)

  /** The state after a click, and the link the click asks the table for. */
  datatype Outcome<C> = Outcome(state: LinkState<C>, request: Option<(C, C)>)

  /** The initial state: no connection remembered. */
  function Idle<C>(): LinkState<C>
  {
    LinkState(None, None)
  }

  /** One click of the LINK tool, `hit` being the connection under the mouse. */
  function Step<C(==)>(s: LinkState<C>, hit: Option<C>): (o: Outcome<C>)
    // a click on empty space changes nothing and creates nothing
    ensures hit.None? ==> o == Outcome(s, None)
    // a link is asked for exactly on a second hit on another connection
    ensures o.request.Some? <==> hit.Some? && s.lBegin.Some? && s.lEnd.None? && hit != s.lBegin
    // and then it joins the remembered connection to the hit one, and both are forgotten
    ensures o.request.Some? ==> o.request.value == (s.lBegin.value, hit.value) && o.state == Idle()
    // so no link from a connection to itself is ever asked for
    ensures o.request.Some? ==> o.request.value.0 != o.request.value.1
    // the first hit is remembered
    ensures hit.Some? && s.lBegin.None? ==> o.state == LinkState(hit, s.lEnd)
    // a second hit on the remembered connection changes nothing
    ensures hit.Some? && hit == s.lBegin ==> o == Outcome(s, None)
    // `lEnd` is never left set
    ensures s.lEnd.None? ==> o.state.lEnd.None?
  {
    if hit.None? then Outcome(s, None)
    else if s.lBegin.None? then Outcome(LinkState(hit, s.lEnd), None)
    else if s.lEnd.None? then
      if hit == s.lBegin then Outcome(s, None)
      else Outcome(Idle(), Some((s.lBegin.value, hit.value)))
    else Outcome(s, None)
  }

  /** The state after a sequence of clicks, and the links they asked for. */
  function Run<C(==)>(s: LinkState<C>, hits: seq<Option<C>>): (r: (LinkState<C>, seq<(C, C)>))
    decreases |hits|
  {
    if |hits| == 0 then (s, [])
    else
      var o := Step(s, hits[0]);
      var rest := Run(o.state, hits[1..]);
      (rest.0, (if o.request.Some? then [o.request.value] else []) + rest.1)
  }

  /** The number of clicks that hit a connection. */
  function Hits<C>(hits: seq<Option<C>>): nat
  {
    if |hits| == 0 then 0 else (if hits[0].Some? then 1 else 0) + Hits(hits[1..])
  }

  /** Over any sequence of clicks from a state with `lEnd` unset, `lEnd` stays
      unset, no requested link joins a connection to itself, and every link
      costs two hits (one of them possibly made before the sequence). */
  lemma {:induction false} RunKeepsInvariant<C>(s: LinkState<C>, hits: seq<Option<C>>)
    requires s.lEnd.None?
    ensures Run(s, hits).0.lEnd.None?
    ensures forall i :: 0 <= i < |Run(s, hits).1| ==> Run(s, hits).1[i].0 != Run(s, hits).1[i].1
    ensures 2 * |Run(s, hits).1| <= Hits(hits) + (if s.lBegin.Some? then 1 else 0)
    ensures Hits(hits) == 0 ==> Run(s, hits) == (s, [])
    ensures Run(s, hits).1 == [] && Hits(hits) > 0 ==> Run(s, hits).0.lBegin.Some?
    decreases |hits|
  {
    if |hits| > 0 {
      var o := Step(s, hits[0]);
      RunKeepsInvariant(o.state, hits[1..]);
      var rest := Run(o.state, hits[1..]);
      var mine: seq<(C, C)> := if o.request.Some? then [o.request.value] else [];
      assert Run(s, hits).1 == mine + rest.1;
      forall i | 0 <= i < |Run(s, hits).1|
        ensures Run(s, hits).1[i].0 != Run(s, hits).1[i].1
      {
        if i >= |mine| {
          assert Run(s, hits).1[i] == rest.1[i - |mine|];
        }
      }
    }
  }

  /** Two hits on two different connections from the idle state ask for
      exactly one link, from the first to the second, and return to idle. */
  lemma TwoClicksMakeOneLink<C>(a: C, b: C)
    requires a != b
    ensures Run(Idle(), [Some(a), Some(b)]) == (Idle(), [(a, b)])
  {
    var remembered := LinkState(Some(a), None);
    var clicks := [Some(a), Some(b)];
    assert Step(Idle(), Some(a)) == Outcome(remembered, None);
    assert Step(remembered, Some(b)) == Outcome(Idle(), Some((a, b)));
    assert clicks[0] == Some(a) && clicks[1..] == [Some(b)] && [Some(b)][1..] == [];
    var none: seq<(C, C)> := [];
    assert Run(remembered, [Some(b)]) == (Idle(), [(a, b)] + none);
    assert [(a, b)] + none == none + [(a, b)] == [(a, b)];
    assert Run(Idle(), clicks) == (Run(remembered, [Some(b)]).0, none + Run(remembered, [Some(b)]).1);
  }

  /** Hitting the same connection twice from the idle state asks for nothing
      and keeps it remembered. */
  lemma SameConnectionTwiceMakesNothing<C>(a: C)
    ensures Run(Idle(), [Some(a), Some(a)]) == (LinkState(Some(a), None), [])
  {
    var first := Step(Idle(), Some(a));
    assert first == Outcome(LinkState(Some(a), None), None);
    assert [Some(a), Some(a)][1..] == [Some(a)];
    assert Run(first.state, [Some(a)][1..]) == (first.state, []);
    assert Step(first.state, Some(a)) == Outcome(first.state, None);
    var hs := [Some(a)];
    assert hs[0] == Some(a);
    assert Run(first.state, hs).1 == [] + Run(first.state, hs[1..]).1;
    assert Run(first.state, hs) == (first.state, []);
  }
}
