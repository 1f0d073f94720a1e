/** The part of `std::istream` extraction the persistence format relies on. Every
    extraction the program performs (`>>` into a `double`, a `std::string` or a
    `size_t`) skips leading white space and then takes one white-space-delimited
    token, so a stream is modelled as the tokens of the text not yet consumed and
    whether the stream is still good. `Tokens` says which tokens a text holds; once
    an extraction has failed, the stream stays failed and later extractions do
    nothing. */
module Streams {
  import opened Text

  // ---------------------------------------------------------------------------
  // Text as a list of tokens

  /** Drops the leading white space of `s`. */
  function SkipSpace(s: string): (t: string)
    ensures |t| <= |s|
    ensures t == [] || !IsSpace(t[0])
    decreases |s|
  {
    if s != [] && IsSpace(s[0]) then SkipSpace(s[1..]) else s
  }

  /** The length of the longest prefix of `s` that holds no white space. */
  function WordLength(s: string): (n: nat)
    ensures n <= |s|
    ensures forall i :: 0 <= i < n ==> !IsSpace(s[i])
    ensures n == |s| || IsSpace(s[n])
    decreases |s|
  {
    if s != [] && !IsSpace(s[0]) then 1 + WordLength(s[1..]) else 0
  }

  /** All tokens of `s`, in order: what successive extractions see. */
  function Tokens(s: string): (ws: seq<string>)
    ensures forall i :: 0 <= i < |ws| ==> IsToken(ws[i])
    decreases |s|
  {
    var t := SkipSpace(s);
    var n := WordLength(t);
    if n == 0 then [] else [t[..n]] + Tokens(t[n..])
  }

  /** Tokens joined by single blanks. */
  function Unwords(ws: seq<string>): string
    decreases |ws|
  {
    if |ws| == 0 then "" else if |ws| == 1 then ws[0] else ws[0] + " " + Unwords(ws[1..])
  }

  /** Skipping white space that precedes anything skips the same as without it. */
  lemma {:induction false} SkipSpaceLead(sep: string, t: string)
    requires AllSpace(sep)
    ensures SkipSpace(sep + t) == SkipSpace(t)
    decreases |sep|
  {
    if sep != [] {
      assert (sep + t)[1..] == sep[1..] + t;
      SkipSpaceLead(sep[1..], t);
    } else {
      assert sep + t == t;
    }
  }

  /** Leading white space does not change the token list. */
  lemma TokensSkipLead(sep: string, t: string)
    requires AllSpace(sep)
    ensures Tokens(sep + t) == Tokens(t)
  {
    SkipSpaceLead(sep, t);
  }

  /** A token followed by white space or by nothing is a whole word. */
  lemma {:induction false} WordLengthOver(w: string, rest: string)
    requires forall i :: 0 <= i < |w| ==> !IsSpace(w[i])
    requires rest == [] || IsSpace(rest[0])
    ensures WordLength(w + rest) == |w|
    decreases |w|
  {
    if w != [] {
      assert (w + rest)[1..] == w[1..] + rest;
      WordLengthOver(w[1..], rest);
    } else {
      assert w + rest == rest;
    }
  }

  /** A token, then white space or nothing, then `rest`: the token comes first. */
  lemma TokensAfter(w: string, rest: string)
    requires IsToken(w)
    requires rest == [] || IsSpace(rest[0])
    ensures Tokens(w + rest) == [w] + Tokens(rest)
  {
    assert SkipSpace(w + rest) == w + rest;
    WordLengthOver(w, rest);
    assert (w + rest)[..|w|] == w;
    assert (w + rest)[|w|..] == rest;
  }

  /** A token, a blank, then `tail`: the token comes first. */
  lemma BlankAfterToken(w: string, tail: string)
    requires IsToken(w)
    ensures Tokens(w + (" " + tail)) == [w] + Tokens(tail)
  {
    TokensAfter(w, " " + tail);
    TokensSkipLead(" ", tail);
  }

  /** Splitting blank-joined tokens gives the tokens back. */
  lemma {:induction false} TokensOfUnwords(ws: seq<string>, rest: string)
    requires forall i :: 0 <= i < |ws| ==> IsToken(ws[i])
    requires rest == [] || IsSpace(rest[0])
    ensures Tokens(Unwords(ws) + rest) == ws + Tokens(rest)
    decreases |ws|
  {
    if |ws| == 0 {
      assert Unwords(ws) + rest == rest;
      assert ws + Tokens(rest) == Tokens(rest);
    } else if |ws| == 1 {
      assert Unwords(ws) + rest == ws[0] + rest;
      TokensAfter(ws[0], rest);
      assert ws == [ws[0]];
    } else {
      var tail := Unwords(ws[1..]) + rest;
      Associative(ws[0] + " ", Unwords(ws[1..]), rest);
      Associative(ws[0], " ", tail);
      BlankAfterToken(ws[0], tail);
      TokensOfUnwords(ws[1..], rest);
      Associative([ws[0]], ws[1..], Tokens(rest));
      assert ws == [ws[0]] + ws[1..];
    }
  }

  /** White space alone holds no token. */
  lemma NoTokensInSpace(sep: string)
    requires AllSpace(sep)
    ensures Tokens(sep) == []
  {
    TokensSkipLead(sep, []);
    assert sep + [] == sep;
  }

  // ---------------------------------------------------------------------------
  // Extraction

  /** An input stream: the tokens not yet consumed, and whether it is still good. */
  datatype InStream = InStream(tokens: seq<string>, good: bool)

  /** A good stream over the text `s`. */
  function Open(s: string): (r: InStream)
    ensures r.good && r.tokens == Tokens(s)
  {
    InStream(Tokens(s), true)
  }

  /** Extracts one token. A stream that is no longer good yields nothing and is left
      as it is; a good stream with no token left yields nothing and fails. */
  function ExtractToken(src: InStream): (r: (Option<string>, InStream))
  {
    if !src.good then (None, src)
    else if src.tokens == [] then (None, InStream([], false))
    else (Some(src.tokens[0]), InStream(src.tokens[1..], true))
  }

  /** How numbers are written and read back: `render` is what `operator<<` prints for
      a `double`, `parse` what `operator>>` accepts from one token. */
  datatype NumberFormat = NumberFormat(render: real -> string, parse: string -> Option<real>)

  /** The rendering of `x` is a single token that parses back to `x`. */
  ghost predicate RoundTrips(fmt: NumberFormat, x: real) {
    IsToken(fmt.render(x)) && fmt.parse(fmt.render(x)) == Some(x)
  }

  /** A decimal numeral is accepted as a floating-point token, with its value. */
  ghost predicate ReadsWholeNumbers(fmt: NumberFormat) {
    forall n: nat :: fmt.parse(NatToDecimal(n)) == Some(n as real)
  }

  /** A format under which the whole numbers round-trip: a non-negative whole number
      is written as its decimal numeral and anything else as `nan`, and exactly the
      decimal numerals are read back. No format makes every real round-trip (there
      are more reals than strings), so the round-trip results ask it only of the
      numbers actually written; this format shows those conditions can be met. */
  function WholeFormat(): NumberFormat {
    NumberFormat(
      x => if 0.0 <= x && x.Floor as real == x then NatToDecimal(x.Floor) else "nan",
      w => if ParseNat(w).Some? then Some(ParseNat(w).value as real) else None)
  }

  /** Under `WholeFormat`, every whole number round-trips. */
  lemma WholeNumberRoundTrips(n: nat)
    ensures RoundTrips(WholeFormat(), n as real)
  {
    assert (n as real).Floor == n;
    DecimalIsToken(n);
    ParseNatOfDecimal(n);
  }

  /** `WholeFormat` reads every decimal numeral as its value. */
  lemma WholeFormatReadsWholeNumbers()
    ensures ReadsWholeNumbers(WholeFormat())
  {
    forall n: nat
      ensures WholeFormat().parse(NatToDecimal(n)) == Some(n as real)
    {
      ParseNatOfDecimal(n);
    }
  }

  /** `in >> s` for a `std::string s`: the next token, or `s` untouched when there is
      none (the stream was failed already, or no token was left). */
  function ReadWord(s: string, src: InStream): (r: (string, InStream))
    ensures r.1.good <==> src.good && src.tokens != []
    ensures r.1.good ==> r == (src.tokens[0], InStream(src.tokens[1..], true))
    ensures !r.1.good ==> r.0 == s
  {
    var (w, is1) := ExtractToken(src);
    (w.GetOr(s), is1)
  }

  /** `in >> x` for a `double x`. With no token left, or on a failed stream, `x` is
      untouched; a token that is not a number stores zero and fails the stream. */
  function ReadReal(x: real, src: InStream, fmt: NumberFormat): (r: (real, InStream))
    ensures r.1.good <==> src.good && src.tokens != [] && fmt.parse(src.tokens[0]).Some?
    ensures r.1.good ==> r == (fmt.parse(src.tokens[0]).value, InStream(src.tokens[1..], true))
    ensures !src.good ==> r == (x, src)
  {
    var (w, is1) := ExtractToken(src);
    if w.None? then (x, is1)
    else match fmt.parse(w.value)
      case Some(v) => (v, is1)
      case None => (0.0, InStream(is1.tokens, false))
  }

  /** `in >> n` for a `size_t n`, on the same terms: a token that is not a decimal
      numeral stores zero and fails the stream. */
  function ReadNat(n: nat, src: InStream): (r: (nat, InStream))
    ensures r.1.good <==> src.good && src.tokens != [] && ParseNat(src.tokens[0]).Some?
    ensures r.1.good ==> r == (ParseNat(src.tokens[0]).value, InStream(src.tokens[1..], true))
    ensures !src.good ==> r == (n, src)
  {
    var (w, is1) := ExtractToken(src);
    if w.None? then (n, is1)
    else match ParseNat(w.value)
      case Some(v) => (v, is1)
      case None => (0, InStream(is1.tokens, false))
  }

  /** Reading a number back from its rendering, for a number whose rendering reads
      back as itself, stores it whatever the target held. */
  lemma ReadRealOfRender(x0: real, x: real, rest: seq<string>, fmt: NumberFormat)
    requires RoundTrips(fmt, x)
    ensures ReadReal(x0, InStream([fmt.render(x)] + rest, true), fmt) == (x, InStream(rest, true))
  {
    assert ([fmt.render(x)] + rest)[1..] == rest;
  }

  /** Reading a count back from its decimal numeral. */
  lemma ReadNatOfDecimal(n0: nat, n: nat, rest: seq<string>)
    ensures ReadNat(n0, InStream([NatToDecimal(n)] + rest, true)) == (n, InStream(rest, true))
  {
    ParseNatOfDecimal(n);
    assert ([NatToDecimal(n)] + rest)[1..] == rest;
  }
}
