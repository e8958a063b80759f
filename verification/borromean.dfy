/** The Borromean ring signer: for a list of rings, each holding one branch whose
    blinding factor the prover knows, it produces challenges e and responses s chained
    through every branch of every ring and tied together by one aggregate challenge e0. */
module Borromean {
  import ModArith
  import opened Group
  import opened Challenge
  import opened Results

  /** A branch of a ring: a candidate point and the blinding factor that opens it, or 0
      when the prover cannot open it. */
  datatype Branch = Branch(point: Point, bf: nat)

  type Ring = seq<Branch>

  /** What `sign` returns: (e0, x[], y[], s[][]), x and y being the coordinates of the
      first branch of each ring. */
  datatype Signature = Signature(e0: nat, xs: seq<nat>, ys: seq<nat>, s: seq<seq<nat>>)

  function Points(ring: Ring): (ps: seq<Point>)
    ensures |ps| == |ring|
    ensures forall j :: 0 <= j < |ring| ==> ps[j] == ring[j].point
  {
    seq(|ring|, j requires 0 <= j < |ring| => ring[j].point)
  }

  function RingPoints(rings: seq<Ring>): (pss: seq<seq<Point>>)
    ensures |pss| == |rings|
    ensures forall i :: 0 <= i < |rings| ==> pss[i] == Points(rings[i])
  {
    seq(|rings|, i requires 0 <= i < |rings| => Points(rings[i]))
  }

  predicate HasSigner(ring: Ring) {
    exists j :: 0 <= j < |ring| && ring[j].bf != 0
  }

  /** The index `sign` records for a ring: the last branch with a non-zero blinding factor
      (each such branch overwrites the previous one). */
  function SignerIndex(ring: Ring): (j: nat)
    requires HasSigner(ring)
    ensures j < |ring| && ring[j].bf != 0
    ensures forall l :: j < l < |ring| ==> ring[l].bf == 0
  {
    var last := |ring| - 1;
    if ring[last].bf != 0 then last
    else
      assert HasSigner(ring[..last]) by {
        var l :| 0 <= l < |ring| && ring[l].bf != 0;
        assert ring[..last][l] == ring[l];
      }
      SignerIndex(ring[..last])
  }

  /** The signer's branch can be opened: its point is bf·G for the blinding factor it carries. */
  predicate SignerOpens(ring: Ring)
    requires HasSigner(ring)
  {
    var j := SignerIndex(ring);
    ring[j].point == Mul(ring[j].bf, G)
  }

  /** The challenge after branch j of ring i, when that branch, holding point p, answers the
      incoming challenge e with the response s: hash(m, address((e·p - s·G)·x(p)^-1), i, j). */
  function ChainStep(o: Oracle, m: nat, i: nat, j: nat, e: nat, s: nat, p: Point): (r: nat)
    ensures r < N
  {
    var R := Mul(o.invX(p), Add(Mul(e, p), Neg(Mul(s, G))));
    Hash(o, Link(m, Address(o, R), i, j))
  }

  /** The signer's outgoing challenge, from its ephemeral scalar k:
      hash(m, address(k·G·x(p)^-1), i, j). */
  function OpeningStep(o: Oracle, m: nat, i: nat, j: nat, k: nat, p: Point): (r: nat)
    ensures r < N
  {
    Hash(o, Link(m, Address(o, Mul(o.invX(p), Mul(k, G))), i, j))
  }

  /** The closing response s = (e·bf - k) mod n makes e·p - s·G equal k·G when p = bf·G,
      so the challenge recomputed from it is the signer's own. */
  lemma ClosingResponse(o: Oracle, m: nat, i: nat, j: nat, e: nat, k: nat, bf: nat, p: Point)
    requires p == Mul(bf, G)
    ensures ChainStep(o, m, i, j, e, (e * bf - k) % N, p) == OpeningStep(o, m, i, j, k, p)
  {
    var s := (e * bf - k) % N;
    var a := (e * (bf % N)) % N;
    assert p == Point(bf % N, 0);
    assert Mul(e, p) == Point(a, 0);
    assert Neg(Mul(s, G)) == Point((N - s % N) % N, 0);
    ModArith.ResponseCancels(e, bf, k, N);
    assert Add(Mul(e, p), Neg(Mul(s, G))) == Point(k % N, 0);
  }

  /** The x-coordinates of the first branch of each ring. */
  function FirstXs(o: Oracle, rings: seq<seq<Point>>): (xs: seq<nat>)
    requires forall i :: 0 <= i < |rings| ==> |rings[i]| > 0
    ensures |xs| == |rings|
  {
    seq<nat>(|rings|, i requires 0 <= i < |rings| => o.x(rings[i][0]))
  }

  /** The y-coordinates of the first branch of each ring. */
  function FirstYs(o: Oracle, rings: seq<seq<Point>>): (ys: seq<nat>)
    requires forall i :: 0 <= i < |rings| ==> |rings[i]| > 0
    ensures |ys| == |rings|
  {
    seq<nat>(|rings|, i requires 0 <= i < |rings| => o.y(rings[i][0]))
  }

  /** The message binding the signature to the commitment c and to the first branches. */
  function MessageOf(o: Oracle, c: Point, rings: seq<seq<Point>>): (m: nat)
    requires forall i :: 0 <= i < |rings| ==> |rings[i]| > 0
    ensures m < N
  {
    Hash(o, Message(o.x(c), o.y(c), FirstXs(o, rings), FirstYs(o, rings)))
  }

  /** The challenge reached at branch hi of ring i when the chain enters branch j with e. */
  function Chain(o: Oracle, m: nat, i: nat, ps: seq<Point>, s: seq<nat>, e: nat, j: nat, hi: nat): nat
    requires |s| == |ps| && j <= hi <= |ps|
    decreases hi - j
  {
    if j == hi then e else Chain(o, m, i, ps, s, ChainStep(o, m, i, j, e, s[j], ps[j]), j + 1, hi)
  }

  /** Consecutive challenges in row e are linked through branches lo..hi-1 by responses s. */
  predicate Links(o: Oracle, m: nat, i: nat, ps: seq<Point>, e: seq<nat>, s: seq<nat>, lo: nat, hi: nat)
    requires |e| == |ps| + 1 && |s| == |ps| && lo <= hi <= |ps|
  {
    forall j :: lo <= j < hi ==> e[j + 1] == ChainStep(o, m, i, j, e[j], s[j], ps[j])
  }

  /** A row of linked challenges is what the chain recomputes from its first entry. */
  lemma {:induction false} LinksFollowChain(o: Oracle, m: nat, i: nat, ps: seq<Point>, e: seq<nat>, s: seq<nat>, lo: nat, hi: nat)
    requires |e| == |ps| + 1 && |s| == |ps| && lo <= hi <= |ps|
    requires Links(o, m, i, ps, e, s, lo, hi)
    ensures Chain(o, m, i, ps, s, e[lo], lo, hi) == e[hi]
    decreases hi - lo
  {
    if lo < hi {
      LinksFollowChain(o, m, i, ps, e, s, lo + 1, hi);
    }
  }

  /** The final challenge of every ring, each chain starting from e0. */
  function RingEndsOf(o: Oracle, m: nat, rings: seq<seq<Point>>, s: seq<seq<nat>>, e0: nat): (ends: seq<nat>)
    requires |s| == |rings|
    requires forall i :: 0 <= i < |rings| ==> |s[i]| == |rings[i]|
    ensures |ends| == |rings|
  {
    seq(|rings|, i requires 0 <= i < |rings| => Chain(o, m, i, rings[i], s[i], e0, 0, |rings[i]|))
  }

  /** What a verifier checks: starting every ring at e0 and recomputing each challenge from
      the published responses, the final challenges of the rings hash back to e0. */
  predicate Verifies(o: Oracle, c: Point, rings: seq<seq<Point>>, sig: Signature) {
    && |sig.s| == |rings|
    && (forall i :: 0 <= i < |rings| ==> |rings[i]| > 0 && |sig.s[i]| == |rings[i]|)
    && sig.xs == FirstXs(o, rings)
    && sig.ys == FirstYs(o, rings)
    && sig.e0 == Hash(o, RingEnds(RingEndsOf(o, MessageOf(o, c, rings), rings, sig.s, sig.e0)))
  }

  /** Records the signer of one ring and its chameleon-hash challenge (client.py:187-195). */
  method OpenRing(o: Oracle, m: nat, i: nat, ring: Ring, k: nat) returns (row: seq<nat>, signer: nat)
    requires HasSigner(ring)
    ensures |row| == |ring| + 1 && row[0] == 0
    ensures forall j :: 0 <= j < |ring| ==>
      row[j + 1] == if ring[j].bf != 0 then OpeningStep(o, m, i, j, k, ring[j].point) else 0
    ensures signer == SignerIndex(ring)
  {
    row := seq(|ring| + 1, _ => 0);
    signer := 0;
    for j := 0 to |ring|
      invariant |row| == |ring| + 1 && row[0] == 0
      invariant forall l :: 0 <= l < j ==>
        row[l + 1] == if ring[l].bf != 0 then OpeningStep(o, m, i, l, k, ring[l].point) else 0
      invariant forall l :: j < l <= |ring| ==> row[l] == 0
      invariant (exists l :: 0 <= l < j && ring[l].bf != 0) ==>
        signer < j && ring[signer].bf != 0 && forall l :: signer < l < j ==> ring[l].bf == 0
    {
      if ring[j].bf != 0 {
        row := row[j + 1 := OpeningStep(o, m, i, j, k, ring[j].point)];
        signer := j;
      }
    }
    var last := SignerIndex(ring);
    assert ring[last].bf != 0;
  }

  /** Draws the responses of branches lo..hi-1 of ring i and chains a challenge through each
      (the non-signer loops, client.py:199-207 and 215-224). */
  method ChainRange(o: Oracle, m: nat, i: nat, ps: seq<Point>, e: seq<nat>, s: seq<nat>, draws: seq<nat>, lo: nat, hi: nat)
    returns (e': seq<nat>, s': seq<nat>)
    requires |e| == |ps| + 1 && |s| == |ps| && |draws| == |ps| && lo <= hi <= |ps|
    ensures |e'| == |e| && |s'| == |s|
    ensures forall j :: lo <= j < hi ==> s'[j] == draws[j]
    ensures Links(o, m, i, ps, e', s', lo, hi)
    ensures forall j :: 0 <= j <= |ps| && !(lo < j <= hi) ==> e'[j] == e[j]
    ensures forall j :: 0 <= j < |ps| && !(lo <= j < hi) ==> s'[j] == s[j]
  {
    e', s' := e, s;
    for j := lo to hi
      invariant |e'| == |e| && |s'| == |s|
      invariant forall l :: lo <= l < j ==> s'[l] == draws[l]
      invariant Links(o, m, i, ps, e', s', lo, j)
      invariant forall l :: 0 <= l <= |ps| && !(lo < l <= j) ==> e'[l] == e[l]
      invariant forall l :: 0 <= l < |ps| && !(lo <= l < j) ==> s'[l] == s[l]
    {
      s' := s'[j := draws[j]];
      e' := e'[j + 1 := ChainStep(o, m, i, j, e'[j], s'[j], ps[j])];
    }
  }

  /** Ring t after the chameleon hash: the signer is recorded and the challenge after it
      comes from the ephemeral scalar k. */
  predicate Opened(o: Oracle, m: nat, t: nat, ring: Ring, k: nat, sj: nat, e: seq<nat>)
    requires HasSigner(ring)
  {
    && sj == SignerIndex(ring)
    && |e| == |ring| + 1
    && e[sj + 1] == OpeningStep(o, m, t, sj, k, ring[sj].point)
  }

  /** Ring t after the forward pass: every branch after the signer has its drawn response
      and passes the challenge on. */
  predicate ForwardDone(o: Oracle, m: nat, t: nat, ring: Ring, k: nat, sj: nat, e: seq<nat>, s: seq<nat>, draws: seq<nat>)
    requires HasSigner(ring) && |draws| == |ring|
  {
    && Opened(o, m, t, ring, k, sj, e)
    && |s| == |ring|
    && Links(o, m, t, Points(ring), e, s, sj + 1, |ring|)
    && (forall j :: sj < j < |ring| ==> s[j] == draws[j])
  }

  /** Ring t after the backward pass: it starts at e0 and every branch before the signer
      has its drawn response and passes the challenge on. */
  predicate BackwardDone(o: Oracle, m: nat, t: nat, ring: Ring, k: nat, sj: nat, e: seq<nat>, s: seq<nat>, draws: seq<nat>, e0: nat)
    requires HasSigner(ring) && |draws| == |ring|
  {
    && ForwardDone(o, m, t, ring, k, sj, e, s, draws)
    && e[0] == e0
    && Links(o, m, t, Points(ring), e, s, 0, sj)
    && (forall j :: 0 <= j < sj ==> s[j] == draws[j])
  }

  /** Ring t once closed: the whole ring is linked from e0, the signer answers with
      (e·bf - k) mod n and every other branch with its draw. */
  predicate Closed(o: Oracle, m: nat, t: nat, ring: Ring, k: nat, sj: nat, e: seq<nat>, s: seq<nat>, draws: seq<nat>, e0: nat)
    requires HasSigner(ring) && |draws| == |ring|
  {
    && sj == SignerIndex(ring)
    && |e| == |ring| + 1 && |s| == |ring|
    && e[0] == e0
    && Links(o, m, t, Points(ring), e, s, 0, |ring|)
    && s[sj] == (e[sj] * ring[sj].bf - k) % N
    && (forall j :: 0 <= j < |ring| && j != sj ==> s[j] == draws[j])
  }

  /** The chameleon hash of every ring's signer (client.py:180-195). */
  method OpenRings(o: Oracle, m: nat, rings: seq<Ring>, kDraws: seq<nat>) returns (e: seq<seq<nat>>, signer: seq<nat>)
    requires forall i :: 0 <= i < |rings| ==> HasSigner(rings[i])
    requires |kDraws| == |rings|
    ensures |e| == |signer| == |rings|
    ensures forall t :: 0 <= t < |rings| ==> Opened(o, m, t, rings[t], kDraws[t], signer[t], e[t])
  {
    e, signer := [], [];
    for i := 0 to |rings|
      invariant |e| == |signer| == i
      invariant forall t :: 0 <= t < i ==> Opened(o, m, t, rings[t], kDraws[t], signer[t], e[t])
    {
      var row, sj := OpenRing(o, m, i, rings[i], kDraws[i]);
      e := e + [row];
      signer := signer + [sj];
    }
  }

  /** The pass from each signer to the end of its ring (client.py:198-207). */
  method ForwardPass(o: Oracle, m: nat, rings: seq<Ring>, kDraws: seq<nat>, sDraws: seq<seq<nat>>, e: seq<seq<nat>>, signer: seq<nat>)
    returns (e': seq<seq<nat>>, s: seq<seq<nat>>)
    requires forall i :: 0 <= i < |rings| ==> HasSigner(rings[i])
    requires |kDraws| == |sDraws| == |e| == |signer| == |rings|
    requires forall i :: 0 <= i < |rings| ==> |sDraws[i]| == |rings[i]|
    requires forall t :: 0 <= t < |rings| ==> Opened(o, m, t, rings[t], kDraws[t], signer[t], e[t])
    ensures |e'| == |s| == |rings|
    ensures forall t :: 0 <= t < |rings| ==> ForwardDone(o, m, t, rings[t], kDraws[t], signer[t], e'[t], s[t], sDraws[t])
  {
    e' := e;
    s := seq(|rings|, i requires 0 <= i < |rings| => seq(|rings[i]|, _ => 0));
    for i := 0 to |rings|
      invariant |e'| == |s| == |rings|
      invariant forall t :: 0 <= t < i ==> ForwardDone(o, m, t, rings[t], kDraws[t], signer[t], e'[t], s[t], sDraws[t])
      invariant forall t :: i <= t < |rings| ==> e'[t] == e[t] && |s[t]| == |rings[t]|
    {
      var row, srow := ChainRange(o, m, i, Points(rings[i]), e'[i], s[i], sDraws[i], signer[i] + 1, |rings[i]|);
      e' := e'[i := row];
      s := s[i := srow];
    }
  }

  /** The pass from e0 up to each signer (client.py:215-224). */
  method BackwardPass(o: Oracle, m: nat, rings: seq<Ring>, kDraws: seq<nat>, sDraws: seq<seq<nat>>, e: seq<seq<nat>>, s: seq<seq<nat>>, signer: seq<nat>, e0: nat)
    returns (e': seq<seq<nat>>, s': seq<seq<nat>>)
    requires forall i :: 0 <= i < |rings| ==> HasSigner(rings[i])
    requires |kDraws| == |sDraws| == |e| == |s| == |signer| == |rings|
    requires forall i :: 0 <= i < |rings| ==> |sDraws[i]| == |rings[i]|
    requires forall t :: 0 <= t < |rings| ==> ForwardDone(o, m, t, rings[t], kDraws[t], signer[t], e[t], s[t], sDraws[t])
    ensures |e'| == |s'| == |rings|
    ensures forall t :: 0 <= t < |rings| ==> BackwardDone(o, m, t, rings[t], kDraws[t], signer[t], e'[t], s'[t], sDraws[t], e0)
    ensures forall t :: 0 <= t < |rings| ==> |e'[t]| == |e[t]| == |rings[t]| + 1 && e'[t][|rings[t]|] == e[t][|rings[t]|]
  {
    e', s' := e, s;
    for i := 0 to |rings|
      invariant |e'| == |s'| == |rings|
      invariant forall t :: 0 <= t < i ==> BackwardDone(o, m, t, rings[t], kDraws[t], signer[t], e'[t], s'[t], sDraws[t], e0)
      invariant forall t :: 0 <= t < i ==> |e'[t]| == |e[t]| == |rings[t]| + 1 && e'[t][|rings[t]|] == e[t][|rings[t]|]
      invariant forall t :: i <= t < |rings| ==> e'[t] == e[t] && s'[t] == s[t]
    {
      var row, srow := ChainRange(o, m, i, Points(rings[i]), e'[i][0 := e0], s'[i], sDraws[i], 0, signer[i]);
      e' := e'[i := row];
      s' := s'[i := srow];
    }
  }

  /** Answering the signer's challenge with a response that passes it on closes a ring
      the backward pass has reached. */
  lemma CloseStep(o: Oracle, m: nat, t: nat, ring: Ring, k: nat, sj: nat, e: seq<nat>, s: seq<nat>, draws: seq<nat>, e0: nat,
                  response: nat)
    requires HasSigner(ring) && |draws| == |ring|
    requires BackwardDone(o, m, t, ring, k, sj, e, s, draws, e0)
    requires response == (e[sj] * ring[sj].bf - k) % N
    requires e[sj + 1] == ChainStep(o, m, t, sj, e[sj], response, ring[sj].point)
    ensures Closed(o, m, t, ring, k, sj, e, s[sj := response], draws, e0)
  {
    var s' := s[sj := response];
    var ps := Points(ring);
    forall j | 0 <= j < |ring|
      ensures e[j + 1] == ChainStep(o, m, t, j, e[j], s'[j], ps[j])
    {
      if j < sj {
        assert Links(o, m, t, ps, e, s, 0, sj);
      } else if j > sj {
        assert Links(o, m, t, ps, e, s, sj + 1, |ring|);
      }
    }
  }

  /** The closing response of every signer and the check that it reproduces the signer's
      challenge (client.py:227-235). */
  method CloseRings(o: Oracle, m: nat, rings: seq<Ring>, kDraws: seq<nat>, sDraws: seq<seq<nat>>, e: seq<seq<nat>>, s: seq<seq<nat>>, signer: seq<nat>, e0: nat)
    returns (r: Result<seq<seq<nat>>>)
    requires forall i :: 0 <= i < |rings| ==> HasSigner(rings[i])
    requires |kDraws| == |sDraws| == |e| == |s| == |signer| == |rings|
    requires forall i :: 0 <= i < |rings| ==> |sDraws[i]| == |rings[i]|
    requires forall t :: 0 <= t < |rings| ==> BackwardDone(o, m, t, rings[t], kDraws[t], signer[t], e[t], s[t], sDraws[t], e0)
    ensures r.Success? ==> |r.value| == |rings|
    ensures r.Success? ==> forall t :: 0 <= t < |rings| ==> Closed(o, m, t, rings[t], kDraws[t], signer[t], e[t], r.value[t], sDraws[t], e0)
    ensures (forall t :: 0 <= t < |rings| ==> SignerOpens(rings[t])) ==> r.Success?
    ensures r.Failure? ==> r.error == ChallengeMismatch
  {
    var s': seq<seq<nat>> := s;
    for i := 0 to |rings|
      invariant |s'| == |rings|
      invariant forall t :: 0 <= t < i ==> Closed(o, m, t, rings[t], kDraws[t], signer[t], e[t], s'[t], sDraws[t], e0)
      invariant forall t :: i <= t < |rings| ==> s'[t] == s[t]
    {
      var j := signer[i];
      var response: nat := (e[i][j] * rings[i][j].bf - kDraws[i]) % N;
      var row: seq<nat> := s'[i][j := response];
      var recomputed := ChainStep(o, m, i, j, e[i][j], response, rings[i][j].point);
      if SignerOpens(rings[i]) {
        ClosingResponse(o, m, i, j, e[i][j], kDraws[i], rings[i][j].bf, rings[i][j].point);
      }
      if e[i][j + 1] != recomputed {
        return Failure(ChallengeMismatch);
      }
      CloseStep(o, m, i, rings[i], kDraws[i], j, e[i], s'[i], sDraws[i], e0, response);
      s' := s'[i := row];
    }
    r := Success(s');
  }

  /** Closed rings make a signature that verifies: each ring, chained from e0 through the
      published responses, ends where the forward pass ended, so the final challenges hash
      back to e0; each signer answered the challenge the chain brings to it. */
  lemma ClosedRingsVerify(o: Oracle, c: Point, rings: seq<Ring>, kDraws: seq<nat>, sDraws: seq<seq<nat>>,
                          e: seq<seq<nat>>, signer: seq<nat>, closed: seq<seq<nat>>, ends: seq<nat>, e0: nat)
    requires forall i :: 0 <= i < |rings| ==> HasSigner(rings[i])
    requires |kDraws| == |sDraws| == |e| == |signer| == |closed| == |ends| == |rings|
    requires forall i :: 0 <= i < |rings| ==> |sDraws[i]| == |rings[i]|
    requires forall t :: 0 <= t < |rings| ==> |closed[t]| == |rings[t]| > 0 && |e[t]| == |rings[t]| + 1
    requires forall t :: 0 <= t < |rings| ==>
      Closed(o, MessageOf(o, c, RingPoints(rings)), t, rings[t], kDraws[t], signer[t], e[t], closed[t], sDraws[t], e0)
    requires forall t :: 0 <= t < |rings| ==> ends[t] == e[t][|rings[t]|]
    requires e0 == Hash(o, RingEnds(ends))
    ensures Verifies(o, c, RingPoints(rings), Signature(e0, FirstXs(o, RingPoints(rings)), FirstYs(o, RingPoints(rings)), closed))
    ensures forall i, j :: 0 <= i < |rings| && 0 <= j < |rings[i]| && j != SignerIndex(rings[i]) ==>
      closed[i][j] == sDraws[i][j]
    ensures forall i :: 0 <= i < |rings| ==>
      var j := SignerIndex(rings[i]);
      var ei := Chain(o, MessageOf(o, c, RingPoints(rings)), i, Points(rings[i]), closed[i], e0, 0, j);
      closed[i][j] == (ei * rings[i][j].bf - kDraws[i]) % N
  {
    var pss := RingPoints(rings);
    var m := MessageOf(o, c, pss);
    forall i | 0 <= i < |rings|
      ensures Chain(o, m, i, pss[i], closed[i], e0, 0, |rings[i]|) == ends[i]
      ensures Chain(o, m, i, pss[i], closed[i], e0, 0, signer[i]) == e[i][signer[i]]
    {
      LinksFollowChain(o, m, i, pss[i], e[i], closed[i], 0, |rings[i]|);
      LinksFollowChain(o, m, i, pss[i], e[i], closed[i], 0, signer[i]);
    }
    assert RingEndsOf(o, m, pss, closed, e0) == ends;
  }

  /** `sign` (client.py:173-237): chains challenges through every ring, joins the rings'
      final challenges into e0, and closes each ring at its signer. */
  method Sign(o: Oracle, c: Point, rings: seq<Ring>, kDraws: seq<nat>, sDraws: seq<seq<nat>>)
    returns (r: Result<Signature>)
    requires forall i :: 0 <= i < |rings| ==> HasSigner(rings[i])
    requires |kDraws| == |rings| && |sDraws| == |rings|
    requires forall i :: 0 <= i < |rings| ==> |sDraws[i]| == |rings[i]|
    ensures r.Success? ==> Verifies(o, c, RingPoints(rings), r.value)
    ensures r.Success? ==> forall i, j :: 0 <= i < |rings| && 0 <= j < |rings[i]| && j != SignerIndex(rings[i]) ==>
      r.value.s[i][j] == sDraws[i][j]
    ensures r.Success? ==> forall i :: 0 <= i < |rings| ==>
      var j := SignerIndex(rings[i]);
      var e := Chain(o, MessageOf(o, c, RingPoints(rings)), i, Points(rings[i]), r.value.s[i], r.value.e0, 0, j);
      r.value.s[i][j] == (e * rings[i][j].bf - kDraws[i]) % N
    ensures (forall i :: 0 <= i < |rings| ==> SignerOpens(rings[i])) ==> r.Success?
    ensures r.Failure? ==> r.error == ChallengeMismatch
  {
    var pss := RingPoints(rings);
    var xs := FirstXs(o, pss);
    var ys := FirstYs(o, pss);
    var m := Hash(o, Message(o.x(c), o.y(c), xs, ys));

    var e, signer := OpenRings(o, m, rings, kDraws);
    var s;
    e, s := ForwardPass(o, m, rings, kDraws, sDraws, e, signer);
    var ends := seq(|rings|, i requires 0 <= i < |rings| => e[i][|rings[i]|]);
    var e0 := Hash(o, RingEnds(ends));
    e, s := BackwardPass(o, m, rings, kDraws, sDraws, e, s, signer, e0);
    var closed :- CloseRings(o, m, rings, kDraws, sDraws, e, s, signer, e0);
    ClosedRingsVerify(o, c, rings, kDraws, sDraws, e, signer, closed, ends, e0);
    r := Success(Signature(e0, xs, ys, closed));
  }
}
