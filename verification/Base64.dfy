/**
 Base64 as `btoa` and `atob` compute it: the encoding of section 4 of RFC 4648,
 and a decoder that skips white space and tolerates missing padding.
 */
module Base64 {
  import opened Wrappers

  type Byte = b: nat | b < 256
  type Bytes = seq<Byte>
  type Sextet = s: nat | s < 64

  function Symbol(s: Sextet): char {
    if s < 26 then (s + 65) as char
    else if s < 52 then (s - 26 + 97) as char
    else if s < 62 then (s - 52 + 48) as char
    else if s == 62 then '+' else '/'
  }

  function Value(c: char): Option<Sextet> {
    if 'A' <= c <= 'Z' then Some(c as int - 65)
    else if 'a' <= c <= 'z' then Some(c as int - 97 + 26)
    else if '0' <= c <= '9' then Some(c as int - 48 + 52)
    else if c == '+' then Some(62)
    else if c == '/' then Some(63)
    else None
  }

  lemma SymbolHasValue(s: Sextet)
    ensures Value(Symbol(s)) == Some(s) && Symbol(s) != '=' && !IsSpace(Symbol(s)) && Symbol(s) != ':'
  {
  }

  // ----- encoding

  /** Three bytes make four sextets; one or two left over make two or three. */
  function Split(b: Bytes): seq<Sextet> {
    if b == [] then []
    else if |b| == 1 then [Top(b[0]), Upper(b[0], 0)]
    else if |b| == 2 then [Top(b[0]), Upper(b[0], b[1]), Lower(b[1], 0)]
    else [Top(b[0]), Upper(b[0], b[1]), Lower(b[1], b[2]), Bottom(b[2])] + Split(b[3..])
  }

  function Top(a: Byte): Sextet { a / 4 }
  function Upper(a: Byte, b: Byte): Sextet { a % 4 * 16 + b / 16 }
  function Lower(b: Byte, c: Byte): Sextet { b % 16 * 4 + c / 64 }
  function Bottom(c: Byte): Sextet { c % 64 }

  function Symbols(s: seq<Sextet>): string {
    if s == [] then "" else [Symbol(s[0])] + Symbols(s[1..])
  }

  function Padding(n: nat): string {
    if n % 3 == 0 then "" else if n % 3 == 1 then "==" else "="
  }

  function Btoa(b: Bytes): string {
    Symbols(Split(b)) + Padding(|b|)
  }

  // ----- decoding

  predicate IsSpace(c: char) {
    c == '\t' || c == '\n' || c == 12 as char || c == '\r' || c == ' '
  }

  function Strip(text: string): string {
    if text == "" then ""
    else (if IsSpace(text[0]) then "" else [text[0]]) + Strip(text[1..])
  }

  function Unpad(text: string): string {
    var n := |text|;
    if n % 4 != 0 || n == 0 || text[n - 1] != '=' then text
    else if text[n - 2] == '=' then text[..n - 2] else text[..n - 1]
  }

  function First(s: Sextet, t: Sextet): Byte { (s as int) * 4 + t / 16 }
  function Second(s: Sextet, t: Sextet): Byte { (s as int) % 16 * 16 + t / 4 }
  function Third(s: Sextet, t: Sextet): Byte { (s as int) % 4 * 64 + t }

  /** Left-over bits of the last symbol are dropped. */
  function Join(s: seq<Sextet>): Option<Bytes> {
    if s == [] then Some([])
    else if |s| == 1 then None
    else if |s| == 2 then Some([First(s[0], s[1])])
    else if |s| == 3 then Some([First(s[0], s[1]), Second(s[1], s[2])])
    else
      var rest := Join(s[4..]);
      if rest.None? then None
      else Some([First(s[0], s[1]), Second(s[1], s[2]), Third(s[2], s[3])] + rest.value)
  }

  function Values(text: string): Option<seq<Sextet>> {
    if text == "" then Some([])
    else
      var first, rest := Value(text[0]), Values(text[1..]);
      if first.None? || rest.None? then None else Some([first.value] + rest.value)
  }

  function Atob(text: string): Option<Bytes> {
    var values := Values(Unpad(Strip(text)));
    if values.None? then None else Join(values.value)
  }

  // ----- the round trip

  /** Every symbol is in the alphabet, so none is a pad, a space or a colon. */
  ghost predicate Plain(text: string) {
    forall i | 0 <= i < |text| :: text[i] != '=' && text[i] != ':' && !IsSpace(text[i])
  }

  lemma {:induction false} ValuesOfSymbols(s: seq<Sextet>)
    ensures |Symbols(s)| == |s| && Plain(Symbols(s)) && Values(Symbols(s)) == Some(s)
  {
    if s != [] {
      SymbolHasValue(s[0]);
      ValuesOfSymbols(s[1..]);
      hide Symbol, Value, IsSpace;
      assert Symbols(s)[1..] == Symbols(s[1..]);
      assert s == [s[0]] + s[1..];
    }
  }

  lemma JoinsThree(a: Byte, b: Byte, c: Byte)
    ensures First(Top(a), Upper(a, b)) == a
    ensures Second(Upper(a, b), Lower(b, c)) == b
    ensures Third(Lower(b, c), Bottom(c)) == c
  {
  }

  lemma {:induction false} SplitLength(b: Bytes)
    ensures |Split(b)| == (4 * |b| + 2) / 3
  {
    if |b| >= 3 {
      SplitLength(b[3..]);
    }
  }

  lemma JoinMore(s: seq<Sextet>, rest: seq<Sextet>, b: Bytes)
    requires |s| == 4 && Join(rest) == Some(b)
    ensures Join(s + rest) == Some([First(s[0], s[1]), Second(s[1], s[2]), Third(s[2], s[3])] + b)
  {
    hide First, Second, Third;
    assert (s + rest)[4..] == rest;
  }

  lemma JoinNone()
    ensures Join([]) == Some([])
  {
  }

  lemma JoinOne(a: Byte, none: Byte)
    ensures Join([Top(a), Upper(a, none)]) == Some([a])
  {
    JoinsThree(a, none, none);
    hide First, Second, Third, Top, Upper, Lower, Bottom;
  }

  lemma JoinTwo(a: Byte, b: Byte, none: Byte)
    ensures Join([Top(a), Upper(a, b), Lower(b, none)]) == Some([a, b])
  {
    JoinsThree(a, b, none);
    hide First, Second, Third, Top, Upper, Lower, Bottom;
  }

  lemma {:induction false} JoinSplit(b: Bytes)
    ensures Join(Split(b)) == Some(b)
  {
    hide First, Second, Third, Top, Upper, Lower, Bottom, Join;
    if |b| >= 3 {
      JoinsThree(b[0], b[1], b[2]);
      JoinSplit(b[3..]);
      JoinMore([Top(b[0]), Upper(b[0], b[1]), Lower(b[1], b[2]), Bottom(b[2])], Split(b[3..]), b[3..]);
      assert b == [b[0], b[1], b[2]] + b[3..];
    } else if |b| == 2 {
      JoinTwo(b[0], b[1], 0);
      assert b == [b[0], b[1]];
    } else if |b| == 1 {
      JoinOne(b[0], 0);
      assert b == [b[0]];
    } else {
      JoinNone();
    }
  }

  lemma {:induction false} StripNothing(text: string)
    requires forall i | 0 <= i < |text| :: !IsSpace(text[i])
    ensures Strip(text) == text
  {
    if text != "" {
      StripNothing(text[1..]);
    }
  }

  lemma UnpadPadded(symbols: string, n: nat)
    requires Plain(symbols) && |symbols| == (4 * n + 2) / 3
    ensures |symbols + Padding(n)| == 4 * ((n + 2) / 3)
    ensures Unpad(symbols + Padding(n)) == symbols
  {
    hide IsSpace;
    var k := n / 3;
    if n % 3 == 0 {
      assert n == 3 * k && |symbols| == 4 * k;
      assert symbols + "" == symbols;
    } else if n % 3 == 1 {
      assert n == 3 * k + 1 && |symbols| == 4 * k + 2;
      assert (symbols + "==")[..|symbols|] == symbols;
    } else {
      assert n == 3 * k + 2 && |symbols| == 4 * k + 3;
      assert (symbols + "=")[..|symbols|] == symbols;
    }
  }

  lemma UnpadBtoa(b: Bytes)
    ensures |Btoa(b)| == 4 * ((|b| + 2) / 3)
    ensures Unpad(Btoa(b)) == Symbols(Split(b))
  {
    hide Symbols, Split, Values, Unpad, Padding, Plain;
    SplitLength(b);
    ValuesOfSymbols(Split(b));
    UnpadPadded(Symbols(Split(b)), |b|);
  }

  /** Decoding undoes encoding, whatever the length. */
  lemma RoundTrip(b: Bytes)
    ensures Atob(Btoa(b)) == Some(b)
  {
    JoinSplit(b);
    ValuesOfSymbols(Split(b));
    UnpadBtoa(b);
    hide Symbols, Split, Join, Values, Unpad, Strip;
    StripNothing(Btoa(b));
  }

  lemma BtoaIsInjective(a: Bytes, b: Bytes)
    requires Btoa(a) == Btoa(b)
    ensures a == b
  {
    RoundTrip(a);
    RoundTrip(b);
  }

  lemma BtoaHasNoColon(b: Bytes)
    ensures ':' !in Btoa(b)
  {
    ValuesOfSymbols(Split(b));
  }

  // ----- the standard

  /** Table 1 of RFC 4648: capitals, small letters, digits, plus and slash. */
  lemma AlphabetIsStandard(s: Sextet)
    ensures s < 26 ==> Symbol(s) as int == 'A' as int + s
    ensures 26 <= s < 52 ==> Symbol(s) as int == 'a' as int + s - 26
    ensures 52 <= s < 62 ==> Symbol(s) as int == '0' as int + s - 52
    ensures s == 62 ==> Symbol(s) == '+'
    ensures s == 63 ==> Symbol(s) == '/'
  {
  }

  predicate InAlphabet(c: char) {
    'A' <= c <= 'Z' || 'a' <= c <= 'z' || '0' <= c <= '9' || c == '+' || c == '/'
  }

  /** Read as one 24-bit number, most significant first, three bytes and their four
      sextets are the same; a group cut short is filled with zero bits. */
  lemma GroupsAreNumbers(b: Bytes)
    ensures var s := Split(b);
      && |s| == (if |b| == 0 then 0 else if |b| == 1 then 2 else if |b| == 2 then 3 else 4 + |Split(b[3..])|)
      && (|b| == 1 ==> s[0] as int * 64 + s[1] as int == b[0] as int * 16)
      && (|b| == 2 ==> s[0] as int * 4096 + s[1] as int * 64 + s[2] as int == b[0] as int * 1024 + b[1] as int * 4)
      && (|b| >= 3 ==>
          && s[0] as int * 262144 + s[1] as int * 4096 + s[2] as int * 64 + s[3] as int
             == b[0] as int * 65536 + b[1] as int * 256 + b[2] as int
          && s[4..] == Split(b[3..]))
  {
  }

  /** The decoder does not see white space. */
  lemma {:induction false} StripsSpaces(before: string, c: char, after: string)
    requires c in {'\t', '\n', 12 as char, '\r', ' '}
    ensures Strip(before + [c] + after) == Strip(before + after)
  {
    if before == "" {
      assert ([c] + after)[1..] == after && "" + [c] + after == [c] + after && "" + after == after;
    } else {
      StripsSpaces(before[1..], c, after);
      assert (before + [c] + after)[1..] == before[1..] + [c] + after;
      assert (before + after)[1..] == before[1..] + after;
    }
  }

  /** Pads are taken off a whole number of groups only, and no more than two. */
  lemma UnpadRemoves(text: string)
    ensures var n, m := |text|, |Unpad(text)|;
      && m <= n <= m + 2 && Unpad(text) == text[..m] && (forall i | m <= i < n :: text[i] == '=')
      && (m < n <==> n > 0 && n % 4 == 0 && text[n - 1] == '=')
      && (m + 2 == n <==> n > 0 && n % 4 == 0 && text[n - 1] == '=' && text[n - 2] == '=')
  {
  }

  /** It refuses a character outside the alphabet and a last group of one symbol, and
      nothing else. */
  lemma AtobFailsExactlyWhen(text: string)
    ensures var symbols := Unpad(Strip(text));
      Atob(text).None? <==> |symbols| % 4 == 1 || exists i :: 0 <= i < |symbols| && !InAlphabet(symbols[i])
  {
    var symbols := Unpad(Strip(text));
    ValuesFailExactlyWhen(symbols);
    if Values(symbols).Some? {
      JoinFailsExactlyWhen(Values(symbols).value);
    }
    hide Values, Join, Unpad, Strip;
  }

  lemma {:induction false} ValuesFailExactlyWhen(text: string)
    ensures Values(text).None? <==> exists i :: 0 <= i < |text| && !InAlphabet(text[i])
    ensures Values(text).Some? ==> |Values(text).value| == |text|
  {
    if text != "" {
      assert Value(text[0]).Some? <==> InAlphabet(text[0]);
      ValuesFailExactlyWhen(text[1..]);
      hide Value, InAlphabet;
      if i: int :| 0 <= i < |text| && !InAlphabet(text[i]) {
        assert i > 0 ==> text[1..][i - 1] == text[i];
      }
      if i: int :| 0 <= i < |text[1..]| && !InAlphabet(text[1..][i]) {
        assert text[i + 1] == text[1..][i];
      }
    }
  }

  lemma {:induction false} JoinFailsExactlyWhen(s: seq<Sextet>)
    ensures Join(s).None? <==> |s| % 4 == 1
  {
    if |s| >= 4 {
      JoinFailsExactlyWhen(s[4..]);
    }
  }

  /** One or two pads fill the last group; a whole number of groups has none. */
  lemma EndsInPads(b: Bytes)
    requires b != []
    ensures var t := Btoa(b);
      && |t| >= 4
      && (t[|t| - 1] == '=' <==> |b| % 3 != 0)
      && (t[|t| - 2] == '=' <==> |b| % 3 == 1)
  {
    SplitLength(b);
    ValuesOfSymbols(Split(b));
    hide Symbols, Split, Values, IsSpace;
    var symbols := Symbols(Split(b));
    assert Plain(symbols) && |symbols| >= 2;
  }

  // ----- the helpers around them

  /** A binary string: one character per byte. */
  predicate IsBinary(bin: string) {
    forall i | 0 <= i < |bin| :: bin[i] as int < 256
  }

  function CodesOf(bin: string): Bytes
    requires IsBinary(bin)
  {
    seq(|bin|, i requires 0 <= i < |bin| => bin[i] as int)
  }

  function BinaryOf(b: Bytes): (bin: string)
    ensures IsBinary(bin) && CodesOf(bin) == b
  {
    seq(|b|, i requires 0 <= i < |b| => b[i] as char)
  }

  method Encode(bytes: array<Byte>) returns (text: string)
    ensures text == Btoa(bytes[..])
  {
    var bin := "";
    for i := 0 to bytes.Length
      invariant IsBinary(bin) && CodesOf(bin) == bytes[..i]
    {
      bin := bin + [bytes[i] as char];
    }
    assert bytes[..bytes.Length] == bytes[..];
    text := Btoa(CodesOf(bin));
  }

  method Decode(text: string) returns (out: Option<array<Byte>>)
    ensures out.Some? <==> Atob(text).Some?
    ensures out.Some? ==> Atob(text) == Some(out.value[..])
  {
    var decoded := Atob(text);
    if decoded.None? {
      return None;
    }
    var bin := BinaryOf(decoded.value);
    var bytes := new Byte[|bin|];
    for i := 0 to |bin|
      invariant bytes[..i] == decoded.value[..i]
    {
      assert CodesOf(bin)[i] == bin[i] as int;
      bytes[i] := bin[i] as int;
      assert bytes[..i + 1] == bytes[..i] + [bytes[i]];
    }
    assert bytes[..] == bytes[..|bin|] && decoded.value == decoded.value[..|bin|];
    out := Some(bytes);
  }
}
