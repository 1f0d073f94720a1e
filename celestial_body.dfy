/** One celestial body: a point mass with a position, a velocity and the name of the
    image that draws it. `Body` is its value; `CelestialBody` is the object whose
    fields the simulation updates in place. */
module Bodies {
  import opened Text
  import opened Streams

  /** A 2-D vector, as `sf::Vector2f` holds one. */
  datatype Vec2 = Vec2(x: real, y: real)

  const Zero := Vec2(0.0, 0.0)

  function Add(a: Vec2, b: Vec2): Vec2 { Vec2(a.x + b.x, a.y + b.y) }

  function Sub(a: Vec2, b: Vec2): Vec2 { Vec2(a.x - b.x, a.y - b.y) }

  function Neg(a: Vec2): Vec2 { Vec2(-a.x, -a.y) }

  function Scale(k: real, a: Vec2): Vec2 { Vec2(k * a.x, k * a.y) }

  datatype Body = Body(px: real, py: real, vx: real, vy: real, mass: real, imageFile: string)
  {
    function Position(): Vec2 { Vec2(px, py) }

    function Velocity(): Vec2 { Vec2(vx, vy) }
  }

  /** The state the default constructor leaves: all numbers zero, no image. */
  const DefaultBody := Body(0.0, 0.0, 0.0, 0.0, 0.0, "")

  /** The effect of `updatePosition(dt)`. */
  function Moved(b: Body, dt: real): Body {
    b.(px := b.px + b.vx * dt, py := b.py + b.vy * dt)
  }

  /** The effect of `updateVelocity(ax, ay, dt)`. */
  function Accelerated(b: Body, ax: real, ay: real, dt: real): Body {
    b.(vx := b.vx + ax * dt, vy := b.vy + ay * dt)
  }

  /** With a zero time step neither update changes anything. */
  lemma ZeroStepUpdates(b: Body, ax: real, ay: real)
    ensures Moved(b, 0.0) == b
    ensures Accelerated(b, ax, ay, 0.0) == b
  {
  }

  /** The six fields as `operator<<` writes them, in writing order. */
  function BodyTokens(b: Body, fmt: NumberFormat): seq<string> {
    [fmt.render(b.px), fmt.render(b.py), fmt.render(b.vx), fmt.render(b.vy),
     fmt.render(b.mass), b.imageFile]
  }

  /** The text `operator<<` writes for a body: the six fields separated by one blank. */
  function BodyText(b: Body, fmt: NumberFormat): string {
    Unwords(BodyTokens(b, fmt))
  }

  /** Every field of `b` is written as a single token: the five renderings and the
      image name hold no white space and are not empty. */
  predicate WrittenAsTokens(b: Body, fmt: NumberFormat) {
    IsToken(fmt.render(b.px)) && IsToken(fmt.render(b.py)) && IsToken(fmt.render(b.vx)) &&
    IsToken(fmt.render(b.vy)) && IsToken(fmt.render(b.mass)) && IsToken(b.imageFile)
  }

  /** Each of the five numbers of `b` reads back from its rendering as itself. */
  ghost predicate BodyRoundTrips(b: Body, fmt: NumberFormat) {
    RoundTrips(fmt, b.px) && RoundTrips(fmt, b.py) && RoundTrips(fmt, b.vx) &&
    RoundTrips(fmt, b.vy) && RoundTrips(fmt, b.mass)
  }

  /** A body whose numbers round-trip and whose image name is one token is written
      as six tokens. */
  lemma RoundTripsWrittenAsTokens(b: Body, fmt: NumberFormat)
    requires BodyRoundTrips(b, fmt) && IsToken(b.imageFile)
    ensures WrittenAsTokens(b, fmt)
  {
  }

  /** What `operator>>` does to a body `b`: six extractions in the same order as
      `BodyText` writes them, each with the effect of `ReadReal` or `ReadWord` on its
      field. The mass is stored whatever its value: nothing is validated. */
  function ReadBody(b: Body, src: InStream, fmt: NumberFormat): (r: (Body, InStream))
    ensures r.1.good ==> src.good && |src.tokens| >= 6 && r.1.tokens == src.tokens[6..]
    ensures r.1.good ==> r.0.imageFile == src.tokens[5] && fmt.parse(src.tokens[0]) == Some(r.0.px)
    ensures !src.good ==> r == (b, src)
  {
    var (px, s1) := ReadReal(b.px, src, fmt);
    var (py, s2) := ReadReal(b.py, s1, fmt);
    var (vx, s3) := ReadReal(b.vx, s2, fmt);
    var (vy, s4) := ReadReal(b.vy, s3, fmt);
    var (mass, s5) := ReadReal(b.mass, s4, fmt);
    var (imageFile, s6) := ReadWord(b.imageFile, s5);
    (Body(px, py, vx, vy, mass, imageFile), s6)
  }

  /** When every field is written as a single token, the written text is exactly the
      six tokens of `BodyTokens`. With an empty name or one holding a blank it is not. */
  lemma BodyTextTokens(b: Body, rest: string, fmt: NumberFormat)
    requires WrittenAsTokens(b, fmt)
    requires rest == [] || IsSpace(rest[0])
    ensures Tokens(BodyText(b, fmt) + rest) == BodyTokens(b, fmt) + Tokens(rest)
  {
    var ws := BodyTokens(b, fmt);
    assert forall i :: 0 <= i < |ws| ==> IsToken(ws[i]);
    TokensOfUnwords(ws, rest);
  }

  /** Reading the six tokens back recovers every field, whatever the body held before,
      provided the numbers round-trip. */
  lemma ReadBodyOfTokens(b0: Body, b: Body, rest: seq<string>, fmt: NumberFormat)
    requires BodyRoundTrips(b, fmt)
    ensures ReadBody(b0, InStream(BodyTokens(b, fmt) + rest, true), fmt) == (b, InStream(rest, true))
  {
    var t5 := [b.imageFile] + rest;
    var t4 := [fmt.render(b.mass)] + t5;
    var t3 := [fmt.render(b.vy)] + t4;
    var t2 := [fmt.render(b.vx)] + t3;
    var t1 := [fmt.render(b.py)] + t2;
    assert BodyTokens(b, fmt) + rest == [fmt.render(b.px)] + t1;
    ReadRealOfRender(b0.px, b.px, t1, fmt);
    ReadRealOfRender(b0.py, b.py, t2, fmt);
    ReadRealOfRender(b0.vx, b.vx, t3, fmt);
    ReadRealOfRender(b0.vy, b.vy, t4, fmt);
    ReadRealOfRender(b0.mass, b.mass, t5, fmt);
    assert t5[1..] == rest;
  }

  /** Reading back what `operator<<` wrote recovers every field, provided the numbers
      round-trip and the image name is a single token; what follows is left unread. */
  lemma ReadBodyOfText(b0: Body, b: Body, rest: string, fmt: NumberFormat)
    requires BodyRoundTrips(b, fmt) && IsToken(b.imageFile)
    requires rest == [] || IsSpace(rest[0])
    ensures ReadBody(b0, Open(BodyText(b, fmt) + rest), fmt) == (b, Open(rest))
  {
    RoundTripsWrittenAsTokens(b, fmt);
    BodyTextTokens(b, rest, fmt);
    ReadBodyOfTokens(b0, b, Tokens(rest), fmt);
  }

  /** The text of a body followed by `rest`, split after each token. */
  lemma BodyTextSplit(b: Body, sep: string, rest: string, fmt: NumberFormat)
    ensures sep + BodyText(b, fmt) + rest ==
            sep + fmt.render(b.px) + (" " + fmt.render(b.py) + (" " + fmt.render(b.vx) +
            (" " + fmt.render(b.vy) + (" " + fmt.render(b.mass) + (" " + b.imageFile + rest)))))
  {
    var ws := BodyTokens(b, fmt);
    assert Unwords(ws[5..]) == b.imageFile;
    assert Unwords(ws[4..]) == fmt.render(b.mass) + " " + Unwords(ws[5..]);
    assert Unwords(ws[3..]) == fmt.render(b.vy) + " " + Unwords(ws[4..]);
    assert Unwords(ws[2..]) == fmt.render(b.vx) + " " + Unwords(ws[3..]);
    assert Unwords(ws[1..]) == fmt.render(b.py) + " " + Unwords(ws[2..]);
    assert Unwords(ws) == fmt.render(b.px) + " " + Unwords(ws[1..]);
  }

  class CelestialBody {
    var px: real
    var py: real
    var vx: real
    var vy: real
    var mass: real
    var imageFile: string

    /** The body's current value. */
    function State(): Body
      reads this
    {
      Body(px, py, vx, vy, mass, imageFile)
    }

    /** All numbers zero and an empty image name. */
    constructor ()
      ensures State() == DefaultBody
    {
      px, py, vx, vy, mass := 0.0, 0.0, 0.0, 0.0, 0.0;
      imageFile := "";
    }

    /** Stores exactly the given fields. */
    constructor Init(px: real, py: real, vx: real, vy: real, mass: real, imageFile: string)
      ensures State() == Body(px, py, vx, vy, mass, imageFile)
    {
      this.px, this.py, this.vx, this.vy := px, py, vx, vy;
      this.mass, this.imageFile := mass, imageFile;
    }

    function GetPosition(): (p: Vec2)
      reads this
      ensures p == State().Position()
    {
      Vec2(px, py)
    }

    function GetVelocity(): (v: Vec2)
      reads this
      ensures v == State().Velocity()
    {
      Vec2(vx, vy)
    }

    function GetMass(): (m: real)
      reads this
      ensures m == State().mass
    {
      mass
    }

    /** Advances the position by the current velocity over `dt`; nothing else changes. */
    method UpdatePosition(dt: real)
      modifies this
      ensures px == old(px) + old(vx) * dt && py == old(py) + old(vy) * dt
      ensures vx == old(vx) && vy == old(vy)
      ensures mass == old(mass) && imageFile == old(imageFile)
      ensures State() == Moved(old(State()), dt)
    {
      px := px + vx * dt;
      py := py + vy * dt;
    }

    /** Advances the velocity by the acceleration `(ax, ay)` over `dt`; nothing else changes. */
    method UpdateVelocity(ax: real, ay: real, dt: real)
      modifies this
      ensures vx == old(vx) + ax * dt && vy == old(vy) + ay * dt
      ensures px == old(px) && py == old(py)
      ensures mass == old(mass) && imageFile == old(imageFile)
      ensures State() == Accelerated(old(State()), ax, ay, dt)
    {
      vx := vx + ax * dt;
      vy := vy + ay * dt;
    }

    /** `operator>>`: overwrites the fields from the stream, in writing order. */
    method Read(src: InStream, fmt: NumberFormat) returns (rest: InStream)
      modifies this
      ensures (State(), rest) == ReadBody(old(State()), src, fmt)
    {
      ghost var expected := ReadBody(State(), src, fmt);
      var r := ReadReal(px, src, fmt);
      px := r.0;
      r := ReadReal(py, r.1, fmt);
      py := r.0;
      r := ReadReal(vx, r.1, fmt);
      vx := r.0;
      r := ReadReal(vy, r.1, fmt);
      vy := r.0;
      r := ReadReal(mass, r.1, fmt);
      mass := r.0;
      var w := ReadWord(imageFile, r.1);
      imageFile := w.0;
      rest := w.1;
      assert State() == expected.0;
      assert rest == expected.1;
    }

    /** `operator<<`: appends the body's six tokens to the output. */
    method Write(out: string, fmt: NumberFormat) returns (r: string)
      ensures r == out + BodyText(State(), fmt)
    {
      r := out + fmt.render(px) + " " + fmt.render(py) + " " + fmt.render(vx) + " ";
      r := r + fmt.render(vy) + " " + fmt.render(mass) + " " + imageFile;
      BodyTextSplit(State(), out, [], fmt);
      assert out + BodyText(State(), fmt) + [] == out + BodyText(State(), fmt);
    }
  }
}
