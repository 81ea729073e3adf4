/** The string operations of Rust's standard library that the modelled code calls. */
module Text {

  datatype Option<+T> = None | Some(value: T) {

    function GetOr(default: T): T {
      if Some? then value else default
    }
  }

  datatype Result<+T, +E> = Ok(value: T) | Err(error: E)

  // ----- split and join -----

  /** `str::split` on one character: the pieces between the separators, never an empty list. */
  function Split(s: string, sep: char): (parts: seq<string>)
    ensures parts != []
    ensures forall p | p in parts :: sep !in p
  {
    if s == [] then [[]]
    else
      var rest := Split(s[1..], sep);
      if s[0] == sep then [[]] + rest else [[s[0]] + rest[0]] + rest[1..]
  }

  /** The pieces with the separator put back between them. */
  function Join(parts: seq<string>, sep: char): string
    requires parts != []
  {
    if |parts| == 1 then parts[0] else parts[0] + [sep] + Join(parts[1..], sep)
  }

  /** One character more in front: a piece of its own before a separator, or the start of the first piece. */
  lemma JoinOfMore(c: char, rest: seq<string>, sep: char)
    requires rest != []
    ensures Join([[]] + rest, sep) == [sep] + Join(rest, sep)
    ensures Join([[c] + rest[0]] + rest[1..], sep) == [c] + Join(rest, sep)
  {
    assert ([[]] + rest)[1..] == rest;
    assert ([[c] + rest[0]] + rest[1..])[1..] == rest[1..];
  }

  lemma {:induction false} JoinOfSplit(s: string, sep: char)
    ensures Join(Split(s, sep), sep) == s
  {
    if s != [] {
      var rest := Split(s[1..], sep);
      JoinOfSplit(s[1..], sep);
      JoinOfMore(s[0], rest, sep);
    }
  }

  /** Splitting goes through a separator. */
  lemma {:induction false} SplitAppend(head: string, tail: string, sep: char)
    ensures Split(head + [sep] + tail, sep) == Split(head, sep) + Split(tail, sep)
  {
    var s := head + [sep] + tail;
    if head == [] {
      assert s == [sep] + tail;
      SplitOne(sep, tail, sep);
    } else {
      var rest := head[1..] + [sep] + tail;
      assert head == [head[0]] + head[1..] && s == [head[0]] + rest;
      SplitOne(head[0], rest, sep);
      SplitOne(head[0], head[1..], sep);
      SplitAppend(head[1..], tail, sep);
      hide Split;
      FirstGrows(head[0], Split(head[1..], sep), Split(tail, sep));
    }
  }

  lemma FirstGrows(c: char, front: seq<string>, back: seq<string>)
    requires front != []
    ensures [[c] + (front + back)[0]] + (front + back)[1..] == ([[c] + front[0]] + front[1..]) + back
    ensures [[]] + (front + back) == ([[]] + front) + back
  {
  }

  lemma SplitOne(c: char, s: string, sep: char)
    ensures Split([], sep) == [[]]
    ensures Split([c] + s, sep)
         == if c == sep then [[]] + Split(s, sep) else [[c] + Split(s, sep)[0]] + Split(s, sep)[1..]
  {
    assert ([c] + s)[1..] == s;
  }

  lemma {:induction false} SplitOfOnePiece(piece: string, sep: char)
    requires sep !in piece
    ensures Split(piece, sep) == [piece]
  {
    if piece != [] {
      SplitOfOnePiece(piece[1..], sep);
      assert [piece[0]] + piece[1..] == piece;
    }
  }

  lemma SplitThree(a: string, b: string, c: string, sep: char)
    requires sep !in a && sep !in b && sep !in c
    ensures Split(a + [sep] + (b + [sep] + c), sep) == [a, b, c]
  {
    SplitAppend(a, b + [sep] + c, sep);
    SplitAppend(b, c, sep);
    SplitOfOnePiece(a, sep);
    SplitOfOnePiece(b, sep);
    SplitOfOnePiece(c, sep);
  }

  // ----- searching -----

  predicate At(s: string, piece: string, i: nat) {
    i + |piece| <= |s| && s[i..i + |piece|] == piece
  }

  predicate EndsWith(s: string, suffix: string) {
    |suffix| <= |s| && s[|s| - |suffix|..] == suffix
  }

  /** `str::find`: the leftmost occurrence at or after `from`. */
  function Find(s: string, piece: string, from: nat := 0): (found: Option<nat>)
    ensures found.Some? ==> from <= found.value && At(s, piece, found.value)
    ensures found.Some? ==> forall j: nat | from <= j < found.value :: !At(s, piece, j)
    ensures found.None? ==> forall j: nat | from <= j :: !At(s, piece, j)
    decreases |s| - from
  {
    if |s| < from + |piece| then None
    else if At(s, piece, from) then Some(from)
    else Find(s, piece, from + 1)
  }

  // ----- ASCII -----

  predicate IsAsciiDigit(c: char) { '0' <= c <= '9' }

  predicate IsAsciiUpper(c: char) { 'A' <= c <= 'Z' }

  predicate IsAsciiLower(c: char) { 'a' <= c <= 'z' }

  predicate IsAsciiAlphanumeric(c: char) {
    IsAsciiDigit(c) || IsAsciiUpper(c) || IsAsciiLower(c)
  }

  function ToUpper(c: char): char {
    if IsAsciiLower(c) then c - ('a' - 'A') else c
  }

  function ToLower(c: char): char {
    if IsAsciiUpper(c) then c + ('a' - 'A') else c
  }

  function LowerAll(s: string): string {
    seq(|s|, i requires 0 <= i < |s| => ToLower(s[i]))
  }

  // ----- decimal rendering -----

  function Digit(d: nat): char
    requires d < 10
  {
    '0' + d as char
  }

  /** What `{}` writes for an unsigned integer. */
  function Decimal(n: nat): (text: string)
    ensures text != [] && forall c | c in text :: IsAsciiDigit(c)
  {
    if n < 10 then [Digit(n)] else Decimal(n / 10) + [Digit(n % 10)]
  }

  /** The value of a string of digits. */
  function DecimalValue(text: string): nat
    requires forall c | c in text :: IsAsciiDigit(c)
  {
    if text == [] then 0
    else
      var last := text[|text| - 1];
      assert last in text && IsAsciiDigit(last);
      10 * DecimalValue(text[..|text| - 1]) + (last as int - '0' as int)
  }

  /** What `{}` writes for a signed integer. */
  function SignedDecimal(n: int): string {
    if n < 0 then "-" + Decimal(-n) else Decimal(n)
  }

  /** No two numbers are written alike, whatever their signs. */
  lemma SignedDecimalInjective(m: int, n: int)
    ensures SignedDecimal(m) == SignedDecimal(n) <==> m == n
  {
    DecimalRoundTrip(if m < 0 then -m else m);
    DecimalRoundTrip(if n < 0 then -n else n);
    SignLeads(m);
    SignLeads(n);
    if m < 0 && n < 0 {
      assert SignedDecimal(m)[1..] == Decimal(-m) && SignedDecimal(n)[1..] == Decimal(-n);
    }
  }

  lemma SignLeads(n: int)
    ensures SignedDecimal(n)[0] == '-' <==> n < 0
  {
    if n >= 0 {
      assert SignedDecimal(n)[0] in Decimal(n) && IsAsciiDigit(SignedDecimal(n)[0]);
    }
  }

  lemma {:induction false} DecimalRoundTrip(n: nat)
    ensures DecimalValue(Decimal(n)) == n
  {
    if n >= 10 {
      DecimalRoundTrip(n / 10);
      var text := Decimal(n);
      assert text[..|text| - 1] == Decimal(n / 10);
    }
  }
}
