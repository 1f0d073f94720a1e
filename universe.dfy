/** A universe: a list of shared celestial bodies and the radius the whole program
    draws them in. The radius is a static member of `Universe`, one value shared by
    every universe, modelled as a cell that every universe refers to. */
module Universes {
  import opened Text
  import opened Streams
  import opened Bodies
  import opened Gravity

  /** The static `Universe::universeRadius`; it starts at zero. */
  class RadiusCell {
    var value: real

    constructor ()
      ensures value == 0.0
    {
      value := 0.0;
    }
  }

  /** The values held by a list of bodies. */
  function StatesOf(bs: seq<CelestialBody>): (r: seq<Body>)
    reads set b | b in bs
    ensures |r| == |bs|
    ensures forall k :: 0 <= k < |bs| ==> r[k] == bs[k].State()
  {
    if bs == [] then [] else [bs[0].State()] + StatesOf(bs[1..])
  }

  /** The bodies `operator>>` reads after the header: `n` extractions into fresh,
      default-constructed bodies, attempted whether or not the stream is still good. */
  function ReadBodies(src: InStream, n: nat, fmt: NumberFormat): (r: (seq<Body>, InStream))
    ensures |r.0| == n
    decreases n
  {
    if n == 0 then ([], src)
    else
      var (b, s1) := ReadBody(DefaultBody, src, fmt);
      var (bs, s2) := ReadBodies(s1, n - 1, fmt);
      ([b] + bs, s2)
  }

  /** Once the stream has failed, every extraction leaves its body as constructed:
      the `n` bodies are all default ones and the stream is left as it is. */
  lemma {:induction false} ReadBodiesOfFailed(src: InStream, n: nat, fmt: NumberFormat)
    requires !src.good
    ensures ReadBodies(src, n, fmt).1 == src
    ensures forall k :: 0 <= k < n ==> ReadBodies(src, n, fmt).0[k] == DefaultBody
    decreases n
  {
    if n > 0 {
      ReadBodiesOfFailed(src, n - 1, fmt);
    }
  }

  /** `in >> universe`: the count, then the radius (stored in the shared cell), then
      that many bodies. The count is an extraction into a fresh `size_t`, taken to
      start at zero. */
  function ReadUniverse(src: InStream, radius0: real, fmt: NumberFormat): (r: (seq<Body>, real, InStream))
    ensures !src.good ==> r == ([], radius0, src)
  {
    var (n, s1) := ReadNat(0, src);
    var (radius, s2) := ReadReal(radius0, s1, fmt);
    var (bs, s3) := ReadBodies(s2, n, fmt);
    (bs, radius, s3)
  }

  /** The lines `operator<<` writes for the bodies: one body per line. */
  function BodiesText(s: seq<Body>, fmt: NumberFormat): string
    decreases |s|
  {
    if s == [] then "" else BodyText(s[0], fmt) + "\n" + BodiesText(s[1..], fmt)
  }

  /** `out << universe`: the count, the radius and the bodies, one per line. All
      numbers are rendered with `fmt`, the scientific four-digit format that writing a
      body leaves on the stream. */
  function UniverseText(s: seq<Body>, radius: real, fmt: NumberFormat): string {
    NatToDecimal(|s|) + "\n" + fmt.render(radius) + "\n" + BodiesText(s, fmt)
  }

  /** The image names are single tokens, as the persistence format needs. */
  predicate TokenNames(s: seq<Body>) {
    forall k :: 0 <= k < |s| ==> IsToken(s[k].imageFile)
  }

  /** Every body is written as six single tokens. */
  predicate AllWrittenAsTokens(s: seq<Body>, fmt: NumberFormat) {
    forall k :: 0 <= k < |s| ==> WrittenAsTokens(s[k], fmt)
  }

  /** Every number of every body reads back from its rendering as itself. */
  ghost predicate AllRoundTrip(s: seq<Body>, fmt: NumberFormat) {
    forall k :: 0 <= k < |s| ==> BodyRoundTrips(s[k], fmt)
  }

  /** A universe that `operator<<` writes so that `operator>>` can read it back: its
      numbers round-trip and its image names are single tokens. */
  ghost predicate Reloadable(s: seq<Body>, radius: real, fmt: NumberFormat) {
    AllRoundTrip(s, fmt) && TokenNames(s) && RoundTrips(fmt, radius)
  }

  /** A reloadable universe is written as tokens throughout. */
  lemma ReloadableWrittenAsTokens(s: seq<Body>, radius: real, fmt: NumberFormat)
    requires Reloadable(s, radius, fmt)
    ensures AllWrittenAsTokens(s, fmt) && IsToken(fmt.render(radius))
  {
    forall k | 0 <= k < |s|
      ensures WrittenAsTokens(s[k], fmt)
    {
      RoundTripsWrittenAsTokens(s[k], fmt);
    }
  }

  lemma {:induction false} BodiesTextSnoc(s: seq<Body>, b: Body, fmt: NumberFormat)
    ensures BodiesText(s + [b], fmt) == BodiesText(s, fmt) + BodyText(b, fmt) + "\n"
    decreases |s|
  {
    if s == [] {
      assert s + [b] == [b];
      assert [b][1..] == [];
    } else {
      assert (s + [b])[0] == s[0];
      assert (s + [b])[1..] == s[1..] + [b];
      BodiesTextSnoc(s[1..], b, fmt);
    }
  }

  /** One more line of `operator<<`. */
  lemma WriteLine(header: string, s: seq<Body>, i: nat, before: string, after: string, fmt: NumberFormat)
    requires i < |s| && before == header + BodiesText(s[..i], fmt)
    requires after == before + BodyText(s[i], fmt) + "\n"
    ensures after == header + BodiesText(s[..i + 1], fmt)
  {
    BodiesTextSnoc(s[..i], s[i], fmt);
    assert s[..i + 1] == s[..i] + [s[i]];
    Associative(header, BodiesText(s[..i], fmt), BodyText(s[i], fmt));
    Associative(header, BodiesText(s[..i], fmt) + BodyText(s[i], fmt), "\n");
  }

  /** Six pieces of text, regrouped from the right. */
  lemma Regroup<T>(a: seq<T>, b: seq<T>, c: seq<T>, d: seq<T>, e: seq<T>, f: seq<T>)
    ensures a + b + c + d + e + f == a + (b + (c + (d + (e + f))))
  {
    Associative(a + b + c + d, e, f);
    Associative(a + b + c, d, e + f);
    Associative(a + b, c, d + (e + f));
    Associative(a, b, c + (d + (e + f)));
  }

  /** The tokens of the body lines: each body's six tokens, in order. */
  function BodiesTokens(s: seq<Body>, fmt: NumberFormat): (ws: seq<string>)
    ensures |ws| == 6 * |s|
    decreases |s|
  {
    if s == [] then [] else BodyTokens(s[0], fmt) + BodiesTokens(s[1..], fmt)
  }

  /** One body line followed by more text: the body's tokens, then the rest's. */
  lemma BodyLineTokens(b: Body, later: string, fmt: NumberFormat)
    requires WrittenAsTokens(b, fmt)
    ensures Tokens(BodyText(b, fmt) + ("\n" + later)) == BodyTokens(b, fmt) + Tokens(later)
  {
    BodyTextTokens(b, "\n" + later, fmt);
    assert AllSpace("\n");
    TokensSkipLead("\n", later);
  }

  /** The body lines hold exactly the bodies' tokens. */
  lemma {:induction false} BodiesTextTokens(s: seq<Body>, rest: string, fmt: NumberFormat)
    requires AllWrittenAsTokens(s, fmt)
    requires rest == [] || IsSpace(rest[0])
    ensures Tokens(BodiesText(s, fmt) + rest) == BodiesTokens(s, fmt) + Tokens(rest)
    decreases |s|
  {
    if s == [] {
      assert BodiesText(s, fmt) + rest == rest;
    } else {
      var later := BodiesText(s[1..], fmt) + rest;
      Associative(BodyText(s[0], fmt) + "\n", BodiesText(s[1..], fmt), rest);
      Associative(BodyText(s[0], fmt), "\n", later);
      BodyLineTokens(s[0], later, fmt);
      BodiesTextTokens(s[1..], rest, fmt);
      Associative(BodyTokens(s[0], fmt), BodiesTokens(s[1..], fmt), Tokens(rest));
    }
  }

  /** Reading the first body of `s` from the bodies' tokens leaves the tokens of the
      others. */
  lemma FirstBodyOfTokens(s: seq<Body>, rest: seq<string>, fmt: NumberFormat)
    requires s != [] && BodyRoundTrips(s[0], fmt)
    ensures ReadBody(DefaultBody, InStream(BodiesTokens(s, fmt) + rest, true), fmt)
            == (s[0], InStream(BodiesTokens(s[1..], fmt) + rest, true))
  {
    var later := BodiesTokens(s[1..], fmt) + rest;
    Associative(BodyTokens(s[0], fmt), BodiesTokens(s[1..], fmt), rest);
    ReadBodyOfTokens(DefaultBody, s[0], later, fmt);
  }

  /** Reading `|s|` bodies from their tokens recovers them and consumes exactly
      those tokens. */
  lemma ReadBodiesOfTokens(s: seq<Body>, rest: seq<string>, fmt: NumberFormat)
    requires AllRoundTrip(s, fmt)
    ensures ReadBodies(InStream(BodiesTokens(s, fmt) + rest, true), |s|, fmt) == (s, InStream(rest, true))
  {
    var streams := seq(|s| + 1, k requires 0 <= k <= |s| => InStream(BodiesTokens(s[k..], fmt) + rest, true));
    forall k | 0 <= k < |s|
      ensures ReadBody(DefaultBody, streams[k], fmt) == (s[k], streams[k + 1])
    {
      assert s[k..][0] == s[k];
      FirstBodyOfTokens(s[k..], rest, fmt);
      assert s[k..][1..] == s[k + 1..];
    }
    assert s[0..] == s;
    assert s[|s|..] == [] && BodiesTokens([], fmt) + rest == rest;
    assert streams[0] == InStream(BodiesTokens(s, fmt) + rest, true);
    assert streams[|s|] == InStream(rest, true);
    ChainedReadBodies(streams[0], s, streams, fmt);
  }

  /** The first of `n` bodies is read into a default body, the rest after it. */
  lemma ReadBodiesFirst(src: InStream, n: nat, fmt: NumberFormat)
    requires n > 0
    ensures ReadBodies(src, n, fmt).0
            == [ReadBody(DefaultBody, src, fmt).0] + ReadBodies(ReadBody(DefaultBody, src, fmt).1, n - 1, fmt).0
    ensures ReadBodies(src, n, fmt).1 == ReadBodies(ReadBody(DefaultBody, src, fmt).1, n - 1, fmt).1
  {
  }

  /** `states` are the bodies read one after another from `src`, and `streams` the
      stream before each of them and after the last. */
  ghost predicate Chained(src: InStream, states: seq<Body>, streams: seq<InStream>, fmt: NumberFormat) {
    |streams| == |states| + 1 && streams[0] == src &&
    forall k :: 0 <= k < |states| ==> ReadBody(DefaultBody, streams[k], fmt) == (states[k], streams[k + 1])
  }

  /** Reading one more body extends the chain. */
  lemma ChainedSnoc(src: InStream, states: seq<Body>, streams: seq<InStream>, b: Body, after: InStream,
                    fmt: NumberFormat)
    requires Chained(src, states, streams, fmt)
    requires ReadBody(DefaultBody, streams[|states|], fmt) == (b, after)
    ensures Chained(src, states + [b], streams + [after], fmt)
  {
    var states', streams' := states + [b], streams + [after];
    forall k | 0 <= k < |states'|
      ensures ReadBody(DefaultBody, streams'[k], fmt) == (states'[k], streams'[k + 1])
    {
      assert streams'[k] == streams[k];
      if k < |states| {
        assert states'[k] == states[k] && streams'[k + 1] == streams[k + 1];
      }
    }
  }

  /** A chain without its first read is the chain of the reads after it. */
  lemma ChainedTail(src: InStream, states: seq<Body>, streams: seq<InStream>, fmt: NumberFormat)
    requires Chained(src, states, streams, fmt) && states != []
    ensures Chained(streams[1], states[1..], streams[1..], fmt)
  {
    var tail, later := states[1..], streams[1..];
    forall k | 0 <= k < |tail|
      ensures ReadBody(DefaultBody, later[k], fmt) == (tail[k], later[k + 1])
    {
      assert later[k] == streams[k + 1] && later[k + 1] == streams[k + 2] && tail[k] == states[k + 1];
    }
  }

  /** A chain of `n` body reads is what `ReadBodies` reads. */
  lemma {:induction false} ChainedReadBodies(src: InStream, states: seq<Body>, streams: seq<InStream>,
                                             fmt: NumberFormat)
    requires Chained(src, states, streams, fmt)
    ensures ReadBodies(src, |states|, fmt) == (states, streams[|states|])
    decreases |states|
  {
    if states != [] {
      ChainedTail(src, states, streams, fmt);
      ChainedReadBodies(streams[1], states[1..], streams[1..], fmt);
      ReadBodiesFirst(src, |states|, fmt);
      assert ReadBody(DefaultBody, src, fmt) == (states[0], streams[1]);
      assert states == [states[0]] + states[1..];
    }
  }

  /** The tokens of the whole universe text: the count, the radius, the bodies. */
  function UniverseTokens(s: seq<Body>, radius: real, fmt: NumberFormat): seq<string> {
    [NatToDecimal(|s|), fmt.render(radius)] + BodiesTokens(s, fmt)
  }

  /** A header line: its one token, then the tokens of what follows. */
  lemma HeaderLineTokens(w: string, later: string)
    requires IsToken(w)
    ensures Tokens(w + ("\n" + later)) == [w] + Tokens(later)
  {
    TokensAfter(w, "\n" + later);
    assert AllSpace("\n");
    TokensSkipLead("\n", later);
  }

  /** The universe text holds exactly the universe's tokens. */
  lemma UniverseTextTokens(s: seq<Body>, radius: real, rest: string, fmt: NumberFormat)
    requires AllWrittenAsTokens(s, fmt) && IsToken(fmt.render(radius))
    requires rest == [] || IsSpace(rest[0])
    ensures Tokens(UniverseText(s, radius, fmt) + rest) == UniverseTokens(s, radius, fmt) + Tokens(rest)
  {
    var count, r := NatToDecimal(|s|), fmt.render(radius);
    var t2 := BodiesText(s, fmt) + rest;
    Regroup(count, "\n", r, "\n", BodiesText(s, fmt), rest);
    DecimalIsToken(|s|);
    HeaderLineTokens(count, r + ("\n" + t2));
    HeaderLineTokens(r, t2);
    BodiesTextTokens(s, rest, fmt);
    Associative([count], [r], BodiesTokens(s, fmt) + Tokens(rest));
    Associative([count, r], BodiesTokens(s, fmt), Tokens(rest));
    assert [count] + [r] == [count, r];
  }

  /** Reading the universe's tokens back recovers the bodies and the radius, whatever
      the radius held before. */
  lemma ReadUniverseOfTokens(s: seq<Body>, radius: real, radius0: real, rest: seq<string>, fmt: NumberFormat)
    requires AllRoundTrip(s, fmt) && RoundTrips(fmt, radius)
    ensures ReadUniverse(InStream(UniverseTokens(s, radius, fmt) + rest, true), radius0, fmt)
            == (s, radius, InStream(rest, true))
  {
    var t2 := BodiesTokens(s, fmt) + rest;
    var t1 := [fmt.render(radius)] + t2;
    assert UniverseTokens(s, radius, fmt) + rest == [NatToDecimal(|s|)] + t1;
    ReadNatOfDecimal(0, |s|, t1);
    ReadRealOfRender(radius0, radius, t2, fmt);
    ReadBodiesOfTokens(s, rest, fmt);
  }

  /** What `operator<<` writes, `operator>>` reads back: the same bodies and radius,
      whatever the radius held before; what follows the text is left unread. */
  lemma UniverseRoundTrip(s: seq<Body>, radius: real, radius0: real, rest: string, fmt: NumberFormat)
    requires Reloadable(s, radius, fmt)
    requires rest == [] || IsSpace(rest[0])
    ensures ReadUniverse(Open(UniverseText(s, radius, fmt) + rest), radius0, fmt) == (s, radius, Open(rest))
  {
    ReloadableWrittenAsTokens(s, radius, fmt);
    UniverseTextTokens(s, radius, rest, fmt);
    ReadUniverseOfTokens(s, radius, radius0, Tokens(rest), fmt);
  }

  /** The inner loop body of `step`: the pull `b` exerts on `a`, component by
      component, computed as the step computes it. */
  method PairPull(a: CelestialBody, b: CelestialBody, sqrt: real -> real) returns (fx: real, fy: real)
    requires PositiveRoot(sqrt) && a.State().Position() != b.State().Position()
    ensures Vec2(fx, fy) == PairForce(a.State(), b.State(), sqrt)
  {
    var dx := b.GetPosition().x - a.GetPosition().x;
    var dy := b.GetPosition().y - a.GetPosition().y;
    var ma := a.GetMass();
    var mb := b.GetMass();
    SquaresPositive(dx, dy);
    var distance := sqrt(dx * dx + dy * dy);
    var force := (G * ma * mb) / (distance * distance);
    fx := force * dx / distance;
    fy := force * dy / distance;
    PairForceOf(a.State(), b.State(), dx, dy, sqrt);
    assert distance == Hypot(dx, dy, sqrt);
    PullComponents(ma, mb, dx, dy, distance);
  }

  /** The arrays `fx` and `fy` hold the components of `g`, index by index. */
  ghost predicate Mirrors(fx: array<real>, fy: array<real>, g: seq<Vec2>)
    reads fx, fy
  {
    fx.Length == |g| && fy.Length == |g| && forall k :: 0 <= k < |g| ==> Vec2(fx[k], fy[k]) == g[k]
  }

  class Universe {
    var bodies: seq<CelestialBody>
    const radius: RadiusCell

    /** Every body is a distinct object: updating one leaves the others alone. */
    ghost predicate Valid()
      reads this
    {
      forall i, j :: 0 <= i < j < |bodies| ==> bodies[i] != bodies[j]
    }

    /** The bodies' current values, in order. */
    function Contents(): (s: seq<Body>)
      reads this, set b | b in bodies
      ensures |s| == |bodies|
    {
      StatesOf(bodies)
    }

    /** An empty universe sharing the radius cell `cell`. */
    constructor (cell: RadiusCell)
      ensures Valid() && bodies == [] && radius == cell
    {
      bodies := [];
      radius := cell;
    }

    function Size(): (n: nat)
      reads this, set b | b in bodies
      ensures n == |Contents()|
    {
      |bodies|
    }

    function GetRadius(): (r: real)
      reads radius
      ensures r == radius.value
    {
      radius.value
    }

    /** `operator[]`: the shared body at `index`. The source does no bounds check. */
    function At(index: nat): (b: CelestialBody)
      requires index < |bodies|
      reads this, set b | b in bodies
      ensures b == bodies[index] && b.State() == Contents()[index]
    {
      bodies[index]
    }

    /** The first half of `step`: the net force on every body of `bs`, whose values
        are `s`, accumulated pair by pair into two fresh arrays. */
    static method ComputeForces(bs: seq<CelestialBody>, sqrt: real -> real, ghost s: seq<Body>)
      returns (fx: array<real>, fy: array<real>)
      requires |bs| == |s| && forall k {:trigger bs[k]} :: 0 <= k < |s| ==> bs[k].State() == s[k]
      requires Forceable(s, sqrt)
      ensures fresh(fx) && fresh(fy) && fx != fy && Mirrors(fx, fy, Forces(s, sqrt))
    {
      var n := |bs|;
      fx := new real[n](_ => 0.0);
      fy := new real[n](_ => 0.0);
      ghost var f := Zeros(n);
      var i := 0;
      while i < n
        invariant 0 <= i <= n && |f| == n && fx != fy && Mirrors(fx, fy, f)
        invariant AllForces(s, sqrt, f, i) == Forces(s, sqrt)
      {
        AllForcesStep(s, sqrt, f, i);
        AccumulateRow(bs, fx, fy, i, sqrt, s, f);
        f := RowPrefix(s, sqrt, f, i, n);
        i := i + 1;
      }
      assert AllForces(s, sqrt, f, n) == f;
    }

    /** The inner loop of `step` for row `i`: the pulls between body `i` and every
        later body, added to `i` and subtracted from the other. */
    static method AccumulateRow(bs: seq<CelestialBody>, fx: array<real>, fy: array<real>, i: nat,
                                sqrt: real -> real, ghost s: seq<Body>, ghost f: seq<Vec2>)
      requires |bs| == |s| && forall k {:trigger bs[k]} :: 0 <= k < |s| ==> bs[k].State() == s[k]
      requires Forceable(s, sqrt) && i < |s|
      requires fx != fy && |f| == |s| && Mirrors(fx, fy, f)
      modifies fx, fy
      ensures Mirrors(fx, fy, RowPrefix(s, sqrt, f, i, |s|))
    {
      var n := |bs|;
      var j := i + 1;
      while j < n
        invariant i < j <= n
        invariant Mirrors(fx, fy, RowPrefix(s, sqrt, f, i, j))
      {
        AccumulatePair(bs, fx, fy, i, j, sqrt, s, f);
        j := j + 1;
      }
    }

    /** One iteration of the inner loop: the pull between bodies `i` and `j`, added
        to `i` and subtracted from `j`. */
    static method AccumulatePair(bs: seq<CelestialBody>, fx: array<real>, fy: array<real>, i: nat, j: nat,
                                 sqrt: real -> real, ghost s: seq<Body>, ghost f: seq<Vec2>)
      requires |bs| == |s| && forall k {:trigger bs[k]} :: 0 <= k < |s| ==> bs[k].State() == s[k]
      requires Forceable(s, sqrt) && i < j < |s|
      requires fx != fy && |f| == |s| && Mirrors(fx, fy, RowPrefix(s, sqrt, f, i, j))
      modifies fx, fy
      ensures Mirrors(fx, fy, RowPrefix(s, sqrt, f, i, j + 1))
    {
      var fxij, fyij := PairPull(bs[i], bs[j], sqrt);
      AddPairInPlace(fx, fy, i, j, fxij, fyij, RowPrefix(s, sqrt, f, i, j));
    }

    /** Adds the pull `(px, py)` to body `i` and its reaction to body `j`. */
    static method AddPairInPlace(fx: array<real>, fy: array<real>, i: nat, j: nat, px: real, py: real,
                                 ghost g: seq<Vec2>)
      requires fx != fy && i < j < |g| && Mirrors(fx, fy, g)
      modifies fx, fy
      ensures Mirrors(fx, fy, AddPair(g, i, j, Vec2(px, py)))
    {
      fx[i] := fx[i] + px;
      fy[i] := fy[i] + py;
      fx[j] := fx[j] - px;
      fy[j] := fy[j] - py;
    }

    /** `step(dt)`: every body is advanced by the force of the positions before the
        step. The list of bodies itself does not change. */
    method Step(dt: real, sqrt: real -> real)
      requires Valid() && Forceable(Contents(), sqrt) && NonZeroMasses(Contents())
      modifies set b | b in bodies
      ensures Contents() == StepAll(old(Contents()), dt, sqrt)
    {
      ghost var s := Contents();
      var fx, fy := ComputeForces(bodies, sqrt, s);
      AdvanceAll(bodies, fx, fy, dt, s, Forces(s, sqrt));
      forall k | 0 <= k < |s|
        ensures Contents()[k] == StepAll(s, dt, sqrt)[k]
      {
        StepAllAt(s, dt, sqrt, k);
      }
    }

    /** The second loop of `step`: every body of `bs`, whose values are `s`, takes
        one step under its force, which `fx` and `fy` hold component by component. */
    static method AdvanceAll(bs: seq<CelestialBody>, fx: array<real>, fy: array<real>, dt: real,
                             ghost s: seq<Body>, ghost forces: seq<Vec2>)
      requires |bs| == |s| && forall k {:trigger bs[k]} :: 0 <= k < |s| ==> bs[k].State() == s[k]
      requires forall i, j :: 0 <= i < j < |bs| ==> bs[i] != bs[j]
      requires NonZeroMasses(s)
      requires |forces| == |s| && Mirrors(fx, fy, forces)
      modifies set b | b in bs
      ensures forall k :: 0 <= k < |s| ==> bs[k].State() == StepBody(s[k], forces[k], dt)
    {
      var n := |bs|;
      var i := 0;
      while i < n
        invariant 0 <= i <= n
        invariant forall k :: 0 <= k < i ==> bs[k].State() == StepBody(s[k], forces[k], dt)
        invariant forall k :: i <= k < n ==> bs[k].State() == s[k]
      {
        Advance(bs[i], fx[i], fy[i], dt);
        i := i + 1;
      }
    }

    /** The second half of `step` for one body: the velocity is updated with the
        acceleration `force / mass`, then the position with the new velocity. */
    static method Advance(b: CelestialBody, fx: real, fy: real, dt: real)
      requires b.mass != 0.0
      modifies b
      ensures b.State() == StepBody(old(b.State()), Vec2(fx, fy), dt)
    {
      var ax := fx / b.GetMass();
      var ay := fy / b.GetMass();
      b.UpdateVelocity(ax, ay, dt);
      b.UpdatePosition(dt);
    }

    /** `in >> universe`: the shared radius is overwritten and the old bodies are
        replaced by freshly read ones. */
    method Read(src: InStream, fmt: NumberFormat) returns (rest: InStream)
      modifies this, radius
      ensures Valid() && forall k :: 0 <= k < |bodies| ==> fresh(bodies[k])
      ensures (Contents(), radius.value, rest) == ReadUniverse(src, old(radius.value), fmt)
    {
      var count := ReadNat(0, src);
      var r := ReadReal(radius.value, count.1, fmt);
      radius.value := r.0;
      bodies, rest := ReadList(r.1, count.0, fmt);
    }

    /** The loop of `operator>>`: `n` bodies, each default-constructed and then
        overwritten from the stream, appended in reading order. */
    static method ReadList(src: InStream, n: nat, fmt: NumberFormat) returns (bs: seq<CelestialBody>, rest: InStream)
      ensures |bs| == n && forall k :: 0 <= k < n ==> fresh(bs[k])
      ensures forall i, j :: 0 <= i < j < n ==> bs[i] != bs[j]
      ensures (StatesOf(bs), rest) == ReadBodies(src, n, fmt)
    {
      ghost var states: seq<Body> := [];
      ghost var streams := [src];
      bs := [];
      rest := src;
      var i := 0;
      while i < n
        invariant 0 <= i <= n && |bs| == i && |states| == i
        invariant forall k :: 0 <= k < i ==> fresh(bs[k])
        invariant forall k, l :: 0 <= k < l < i ==> bs[k] != bs[l]
        invariant forall k :: 0 <= k < i ==> bs[k].State() == states[k]
        invariant Chained(src, states, streams, fmt) && rest == streams[i]
      {
        var body;
        body, rest := ReadOne(rest, fmt);
        ChainedSnoc(src, states, streams, body.State(), rest, fmt);
        bs := bs + [body];
        states := states + [body.State()];
        streams := streams + [rest];
        i := i + 1;
      }
      ChainedReadBodies(src, states, streams, fmt);
      assert StatesOf(bs) == states;
    }

    /** One iteration of the loop in `operator>>`: a default-constructed body, then
        overwritten from the stream. */
    static method ReadOne(src: InStream, fmt: NumberFormat) returns (body: CelestialBody, rest: InStream)
      ensures fresh(body) && (body.State(), rest) == ReadBody(DefaultBody, src, fmt)
    {
      body := new CelestialBody();
      rest := body.Read(src, fmt);
    }

    /** `out << universe`. */
    method Write(out: string, fmt: NumberFormat) returns (r: string)
      ensures r == out + UniverseText(Contents(), radius.value, fmt)
    {
      var header := out + NatToDecimal(|bodies|) + "\n" + fmt.render(radius.value) + "\n";
      r := WriteLines(bodies, header, fmt, Contents());
      Associative(out, NatToDecimal(|bodies|) + "\n" + fmt.render(radius.value) + "\n", BodiesText(Contents(), fmt));
    }

    /** The loop of `operator<<`: every body of `bs`, whose values are `s`, on a
        line of its own. */
    static method WriteLines(bs: seq<CelestialBody>, out: string, fmt: NumberFormat, ghost s: seq<Body>)
      returns (r: string)
      requires |bs| == |s| && forall k {:trigger bs[k]} :: 0 <= k < |s| ==> bs[k].State() == s[k]
      ensures r == out + BodiesText(s, fmt)
    {
      r := out;
      var i := 0;
      while i < |bs|
        invariant 0 <= i <= |bs|
        invariant r == out + BodiesText(s[..i], fmt)
      {
        ghost var before := r;
        r := bs[i].Write(r, fmt);
        r := r + "\n";
        WriteLine(out, s, i, before, r, fmt);
        i := i + 1;
      }
      assert s[..i] == s;
    }
  }
}
