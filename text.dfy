/** Reading the puzzle text (src/board.rs, `Board::parse`): splitting it into
    tokens and reading each token as an `i8`. */
module Text {
  import opened Common

  /** `char::is_whitespace`: the characters with the Unicode White_Space
      property. */
  predicate IsWhitespace(c: char) {
    var n := c as int;
    || 0x09 <= n <= 0x0D || n == 0x20 || n == 0x85 || n == 0xA0 || n == 0x1680
    || 0x2000 <= n <= 0x200A || n == 0x2028 || n == 0x2029 || n == 0x202F
    || n == 0x205F || n == 0x3000
  }

  /** Space, tab, newline and carriage return separate tokens; no digit,
      sign or placeholder character does. */
  lemma WhitespaceChars(c: char)
    ensures c == ' ' || c == '\t' || c == '\n' || c == '\r' ==> IsWhitespace(c)
    ensures IsWhitespace(c) ==> !('0' <= c <= '9') && c != '+' && c != '-' && c != '_'
  {
  }

  /** A string without whitespace. */
  predicate IsWord(t: string) {
    forall i :: 0 <= i < |t| ==> !IsWhitespace(t[i])
  }

  /** The characters of s that are not whitespace, in order. */
  function Strip(s: string): string {
    if s == [] then [] else (if IsWhitespace(s[0]) then [] else [s[0]]) + Strip(s[1..])
  }

  /** The pieces concatenated. */
  function Concat(ps: seq<string>): string {
    if ps == [] then [] else ps[0] + Concat(ps[1..])
  }

  /** `str::split(char::is_whitespace)`: the pieces between whitespace
      characters, empty pieces included (the empty text is one empty piece). */
  function Split(s: string): (pieces: seq<string>)
    ensures |pieces| >= 1
  {
    if s == [] then [[]]
    else
      var rest := Split(s[1..]);
      if IsWhitespace(s[0]) then [[]] + rest
      else [[s[0]] + rest[0]] + rest[1..]
  }

  /** The pieces are free of whitespace and together hold exactly the
      non-whitespace characters of the text, in order. */
  lemma {:induction false} SplitPieces(s: string)
    ensures forall i :: 0 <= i < |Split(s)| ==> IsWord(Split(s)[i])
    ensures Concat(Split(s)) == Strip(s)
  {
    if s != [] {
      SplitPieces(s[1..]);
      var rest := Split(s[1..]);
      if IsWhitespace(s[0]) {
        assert ([[]] + rest)[1..] == rest;
      } else {
        var ps := [[s[0]] + rest[0]] + rest[1..];
        assert ps[1..] == rest[1..];
        assert Concat(rest) == rest[0] + Concat(rest[1..]);
      }
    }
  }

  /** `.filter(|c| !c.is_empty())`: drop the empty pieces. */
  function NonEmpty(ps: seq<string>): (r: seq<string>)
    ensures |r| <= |ps|
  {
    if ps == [] then []
    else
      var rest := NonEmpty(ps[1..]);
      if ps[0] == [] then rest else [ps[0]] + rest
  }

  /** The kept pieces are non-empty pieces of the input, and no character is
      lost. */
  lemma {:induction false} NonEmptyPieces(ps: seq<string>)
    ensures forall i :: 0 <= i < |NonEmpty(ps)| ==> NonEmpty(ps)[i] != [] && NonEmpty(ps)[i] in ps
    ensures Concat(NonEmpty(ps)) == Concat(ps)
  {
    if ps != [] {
      NonEmptyPieces(ps[1..]);
      var rest := NonEmpty(ps[1..]);
      if ps[0] != [] {
        assert ([ps[0]] + rest)[1..] == rest;
      }
    }
  }

  /** The tokens of the puzzle text: maximal runs of non-whitespace
      characters. Each is non-empty and whitespace-free, and together they
      hold every non-whitespace character of the text, in order. */
  function Tokens(s: string): (ts: seq<string>)
    ensures forall i :: 0 <= i < |ts| ==> ts[i] != [] && IsWord(ts[i])
    ensures Concat(ts) == Strip(s)
  {
    var ps := Split(s);
    SplitPieces(s);
    NonEmptyPieces(ps);
    assert forall p :: p in ps ==> IsWord(p);
    NonEmpty(ps)
  }

  /** The tokens written out with one space between neighbours. */
  function Join(ts: seq<string>): string {
    if |ts| == 0 then []
    else if |ts| == 1 then ts[0]
    else ts[0] + " " + Join(ts[1..])
  }

  /** Splitting text that starts with a word glues the word to the first piece. */
  lemma {:induction false} SplitAfterWord(w: string, t: string)
    requires IsWord(w)
    ensures Split(w + t) == [w + Split(t)[0]] + Split(t)[1..]
  {
    if w == [] {
      assert w + t == t;
      assert w + Split(t)[0] == Split(t)[0];
      assert Split(t) == [Split(t)[0]] + Split(t)[1..];
    } else {
      assert (w + t)[1..] == w[1..] + t;
      SplitAfterWord(w[1..], t);
      assert [w[0]] + (w[1..] + Split(t)[0]) == w + Split(t)[0];
    }
  }

  /** Splitting a space-joined list of words gives the words back. */
  lemma {:induction false} SplitJoin(ts: seq<string>)
    requires |ts| >= 1 && forall i :: 0 <= i < |ts| ==> IsWord(ts[i])
    ensures Split(Join(ts)) == ts
  {
    if |ts| == 1 {
      SplitAfterWord(ts[0], []);
      assert ts[0] + [] == ts[0];
    } else {
      var rest := Join(ts[1..]);
      SplitJoin(ts[1..]);
      assert ts[0] + " " + rest == ts[0] + (" " + rest);
      SplitAfterWord(ts[0], " " + rest);
      assert (" " + rest)[1..] == rest;
      assert Split(" " + rest) == [[]] + ts[1..];
      assert ts[0] + [] == ts[0];
      assert ts == [ts[0]] + ts[1..];
    }
  }

  /** Dropping empty pieces from pieces that are all non-empty changes nothing. */
  lemma {:induction false} NonEmptyKeepsAll(ps: seq<string>)
    requires forall i :: 0 <= i < |ps| ==> ps[i] != []
    ensures NonEmpty(ps) == ps
  {
    if ps != [] {
      NonEmptyKeepsAll(ps[1..]);
    }
  }

  /** Tokenising is a left inverse of writing the tokens out separated by
      spaces: for non-empty whitespace-free tokens, `Tokens(Join(ts)) == ts`. */
  lemma TokensJoin(ts: seq<string>)
    requires forall i :: 0 <= i < |ts| ==> ts[i] != [] && IsWord(ts[i])
    ensures Tokens(Join(ts)) == ts
  {
    if ts != [] {
      SplitJoin(ts);
      NonEmptyKeepsAll(ts);
    }
  }

  /** How many whitespace characters s holds. */
  function CountWhitespace(s: string): nat {
    if s == [] then 0 else (if IsWhitespace(s[0]) then 1 else 0) + CountWhitespace(s[1..])
  }

  /** Every whitespace character ends a piece: there is one piece more than
      there are whitespace characters. */
  lemma {:induction false} SplitCount(s: string)
    ensures |Split(s)| == CountWhitespace(s) + 1
  {
    if s != [] {
      SplitCount(s[1..]);
    }
  }

  /** A text without whitespace is a single piece. */
  lemma SplitWord(w: string)
    requires IsWord(w)
    ensures Split(w) == [w]
  {
    SplitAfterWord(w, []);
    assert w + [] == w;
  }

  /** Unfolding Split by its first character. */
  lemma SplitCons(h: char, rest: string)
    ensures Split([h] + rest) ==
      if IsWhitespace(h) then [[]] + Split(rest)
      else [[h] + Split(rest)[0]] + Split(rest)[1..]
  {
    assert ([h] + rest)[0] == h && ([h] + rest)[1..] == rest;
  }

  /** Gluing a prefix to the first of the pieces ra + sb glues it to the
      first piece of ra. */
  lemma GlueFirst(h: string, ra: seq<string>, sb: seq<string>)
    requires |ra| >= 1
    ensures [h + (ra + sb)[0]] + (ra + sb)[1..] == ([h + ra[0]] + ra[1..]) + sb
  {
    assert (ra + sb)[0] == ra[0];
    assert (ra + sb)[1..] == ra[1..] + sb;
  }

  /** One character in front of both sides of the whitespace law. */
  lemma SplitAtWhitespaceStep(h: char, a: string, c: char, b: string)
    requires Split(a + [c] + b) == Split(a) + Split(b)
    ensures Split([h] + (a + [c] + b)) == Split([h] + a) + Split(b)
  {
    SplitCons(h, a + [c] + b);
    SplitCons(h, a);
    if !IsWhitespace(h) {
      GlueFirst([h], Split(a), Split(b));
    }
  }

  /** Splitting at a whitespace character: the pieces of the text before it
      followed by the pieces of the text after it. */
  lemma {:induction false} SplitAtWhitespace(a: string, c: char, b: string)
    requires IsWhitespace(c)
    ensures Split(a + [c] + b) == Split(a) + Split(b)
  {
    if a == [] {
      assert a + [c] + b == [c] + b;
      SplitCons(c, b);
    } else {
      SplitAtWhitespace(a[1..], c, b);
      SplitAtWhitespaceStep(a[0], a[1..], c, b);
      assert [a[0]] + (a[1..] + [c] + b) == a + [c] + b;
      assert [a[0]] + a[1..] == a;
    }
  }

  /** Unfolding NonEmpty by its first piece. */
  lemma NonEmptyCons(p: string, rest: seq<string>)
    ensures NonEmpty([p] + rest) == (if p == [] then [] else [p]) + NonEmpty(rest)
  {
    assert ([p] + rest)[0] == p && ([p] + rest)[1..] == rest;
  }

  /** Filtering a concatenation filters each part. */
  lemma {:induction false} NonEmptyAppend(ps: seq<string>, qs: seq<string>)
    ensures NonEmpty(ps + qs) == NonEmpty(ps) + NonEmpty(qs)
  {
    if ps == [] {
      assert ps + qs == qs;
    } else {
      var p, rest := ps[0], ps[1..];
      assert ps == [p] + rest;
      assert ps + qs == [p] + (rest + qs);
      NonEmptyAppend(rest, qs);
      NonEmptyCons(p, rest + qs);
      NonEmptyCons(p, rest);
    }
  }

  /** The filter keeps the pieces in order and drops exactly the empty ones:
      one more piece adds itself, unless it is empty. */
  lemma NonEmptySnoc(ps: seq<string>, p: string)
    ensures NonEmpty(ps + [p]) == NonEmpty(ps) + (if p == [] then [] else [p])
  {
    NonEmptyAppend(ps, [p]);
    assert [p][1..] == [];
  }

  /** A non-empty text without whitespace is one token. */
  lemma TokensWord(w: string)
    requires w != [] && IsWord(w)
    ensures Tokens(w) == [w]
  {
    SplitWord(w);
    assert [w][1..] == [];
  }

  /** Tokens end exactly at whitespace: the tokens of a text with a
      whitespace character in it are the tokens before it followed by the
      tokens after it. With Tokens("") == [] and TokensWord this determines
      the tokens of every text. */
  lemma TokensAtWhitespace(a: string, c: char, b: string)
    requires IsWhitespace(c)
    ensures Tokens(a + [c] + b) == Tokens(a) + Tokens(b)
  {
    SplitAtWhitespace(a, c, b);
    NonEmptyAppend(Split(a), Split(b));
  }

  predicate IsDigit(c: char) {
    '0' <= c <= '9'
  }

  /** A non-empty string of decimal digits. */
  predicate IsNumeral(ds: string) {
    ds != [] && forall i :: 0 <= i < |ds| ==> IsDigit(ds[i])
  }

  /** The number a string of decimal digits denotes. */
  function DigitsValue(ds: string): nat
    requires forall i :: 0 <= i < |ds| ==> IsDigit(ds[i])
  {
    if ds == [] then 0
    else
      assert IsDigit(ds[|ds| - 1]);
      10 * DigitsValue(ds[..|ds| - 1]) + (ds[|ds| - 1] as int - '0' as int)
  }

  /** `<i8 as FromStr>::from_str(t).ok()`: an optional `+` or `-`, then at
      least one decimal digit; the value must lie in -128..127. */
  function ParseI8(t: string): (r: Option<Int8>)
    ensures r.Some? ==> t != [] && (IsDigit(t[0]) || t[0] == '+' || t[0] == '-')
    ensures r.Some? ==> |t| >= 1 && forall i :: 1 <= i < |t| ==> IsDigit(t[i])
  {
    var signed := t != [] && (t[0] == '+' || t[0] == '-');
    var ds := if signed then t[1..] else t;
    if !IsNumeral(ds) then None
    else
      var n: int := if signed && t[0] == '-' then 0 - DigitsValue(ds) else DigitsValue(ds);
      if -128 <= n < 128 then Some(n) else None
  }

  /** The decimal numeral of n, without leading zeros. */
  function ShowNat(n: nat): (ds: string)
    ensures IsNumeral(ds) && DigitsValue(ds) == n
  {
    var last := ['0' + (n % 10) as char];
    if n < 10 then
      assert last[..0] == [];
      last
    else
      var front := ShowNat(n / 10);
      assert (front + last)[..|front|] == front;
      front + last
  }

  /** The decimal text of an `i8`, with a minus sign when negative. */
  function Show(n: Int8): string {
    if n < 0 then "-" + ShowNat(-(n as int)) else ShowNat(n)
  }

  /** The text of a number is a word. */
  lemma ShowIsWord(n: Int8)
    ensures Show(n) != [] && IsWord(Show(n))
  {
    var ds := ShowNat(if n < 0 then -(n as int) else n);
    assert forall i :: 0 <= i < |ds| ==> IsDigit(ds[i]);
  }

  /** Reading back the text of any `i8` gives the number. */
  lemma ParseShow(n: Int8)
    ensures ParseI8(Show(n)) == Some(n)
  {
    var t := Show(n);
    if n < 0 {
      assert t[1..] == ShowNat(-(n as int));
    } else {
      assert IsDigit(t[0]);
    }
  }

  /** The value of a numeral with an optional sign. */
  function SignedValue(sign: string, ds: string): int
    requires IsNumeral(ds)
  {
    if sign == "-" then 0 - DigitsValue(ds) else DigitsValue(ds)
  }

  /** Every numeral, unsigned or with a `+` or `-` in front, reads as its
      value when that lies in -128..127, and as no number otherwise. */
  lemma ParseI8Numeral(sign: string, ds: string)
    requires sign == "" || sign == "+" || sign == "-"
    requires IsNumeral(ds)
    ensures ParseI8(sign + ds) ==
      if -128 <= SignedValue(sign, ds) < 128 then Some(SignedValue(sign, ds)) else None
  {
    var t := sign + ds;
    if sign == "" {
      assert t == ds;
      assert IsDigit(ds[0]);
    } else {
      assert t[1..] == ds;
    }
  }

  /** Only such numerals read as numbers: a token that reads as n is an
      unsigned numeral of value n, or a sign followed by a numeral whose
      signed value is n. */
  lemma ParseI8OnlyNumerals(t: string)
    ensures ParseI8(t).Some? ==>
      || (IsNumeral(t) && ParseI8(t).value == SignedValue("", t))
      || (|t| >= 2 && (t[0] == '+' || t[0] == '-') && IsNumeral(t[1..])
          && ParseI8(t).value == SignedValue([t[0]], t[1..]))
  {
  }

  /** The source's own example of a wrong input has three tokens. */
  lemma TokensOfExample()
    ensures Tokens("ala ma kota") == ["ala", "ma", "kota"]
  {
    var ts := ["ala", "ma", "kota"];
    assert Join(ts) == "ala ma kota";
    TokensJoin(ts);
  }

  /** A placeholder and an out-of-range number are no `i8`; signs and the
      extremes of the range are read as Rust reads them. */
  lemma ParseI8Examples()
    ensures ParseI8("_") == None && ParseI8("") == None && ParseI8("-") == None
    ensures ParseI8("200") == None && ParseI8("128") == None
    ensures ParseI8("-128") == Some(-128) && ParseI8("+7") == Some(7) && ParseI8("007") == Some(7)
  {
    assert "200"[..2] == "20" && "20"[..1] == "2" && "2"[..0] == "";
    assert "128"[..2] == "12" && "12"[..1] == "1" && "1"[..0] == "";
    assert "-128"[1..] == "128";
    assert "+7"[1..] == "7" && "7"[..0] == "";
    assert "007"[..2] == "00" && "00"[..1] == "0" && "0"[..0] == "";
  }
}
