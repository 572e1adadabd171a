/**
 The TOML basic-string printer, and the decoder its output is meant for: the String section of
 TOML v1.0.0.
 */
module TomlString {
  import opened Common

  predicate Control(c: char) { c < ' ' || c == 0x7F as char }

  function Hex(d: nat): char
    requires d < 16
  {
    if d < 10 then ('0' as int + d) as char else ('a' as int + (d - 10)) as char
  }

  function HexValue(c: char): Option<nat> {
    if '0' <= c <= '9' then Some((c - '0') as nat)
    else if 'a' <= c <= 'f' then Some((c - 'a') as nat + 10)
    else if 'A' <= c <= 'F' then Some((c - 'A') as nat + 10)
    else None
  }

  /** The text one character is printed as. */
  function Escape(c: char): string {
    if c == '\\' then "\\\\"
    else if c == '"' then "\\\""
    else if c == '\n' then "\\n"
    else if c == '\r' then "\\r"
    else if c == '\t' then "\\t"
    else if Control(c) then ['\\', 'u', '0', '0', Hex(c as int / 16), Hex(c as int % 16)]
    else [c]
  }

  /**
   Which characters are escaped, and how: plain ones stand for themselves, five have two-character escapes,
   every other control character takes the six-character form with its code.
   */
  lemma EscapeForms(c: char)
    ensures Escape(c) == [c] <==> !Control(c) && c != '\\' && c != '"'
    ensures |Escape(c)| == 2 <==> c in {'\\', '"', '\n', '\r', '\t'}
    ensures |Escape(c)| == 6 <==> Control(c) && c !in {'\n', '\r', '\t'}
    ensures |Escape(c)| == 2 || |Escape(c)| == 6 ==> Escape(c)[0] == '\\'
    ensures |Escape(c)| == 6 ==> Escape(c)[..4] == "\\u00"
  {
  }

  /** Characters printed one after the other. */
  function PrintAll(escape: char -> string, s: string): string {
    if s == "" then "" else PrintAll(escape, s[..|s| - 1]) + escape(s[|s| - 1])
  }

  function Body(s: string): string { PrintAll(Escape, s) }

  function Print(s: string): string { "\"" + Body(s) + "\"" }

  // ---------------------------------------------------------------- TOML v1.0.0, basic strings

  /** Value of n hexadecimal digits at the head of the text. */
  function HexRun(s: string, n: nat): Option<nat> {
    if n == 0 then Some(0)
    else if |s| < n then None
    else
      var head := HexRun(s, n - 1);
      if head.None? || HexValue(s[n - 1]).None? then None
      else Some(head.value * 16 + HexValue(s[n - 1]).value)
  }

  predicate Scalar(v: nat) { v < 0xD800 || 0xE000 <= v < 0x110000 }

  /** One character of the body: what it denotes and how much text it takes. */
  function DecodeOne(s: string): Option<(char, nat)> {
    if s == "" then None else
    if s[0] == '"' then None
    else if s[0] != '\\' then if Control(s[0]) && s[0] != '\t' then None else Some((s[0], 1))
    else if |s| < 2 then None
    else match s[1]
      case 'b' => Some((8 as char, 2))
      case 't' => Some(('\t', 2))
      case 'n' => Some(('\n', 2))
      case 'f' => Some((12 as char, 2))
      case 'r' => Some(('\r', 2))
      case '"' => Some(('"', 2))
      case '\\' => Some(('\\', 2))
      case 'u' =>
        var v := HexRun(s[2..], 4);
        if v.None? || !Scalar(v.value) || |s| < 6 then None else Some((v.value as char, 6))
      case 'U' =>
        var v := HexRun(s[2..], 8);
        if v.None? || !Scalar(v.value) || |s| < 10 then None else Some((v.value as char, 10))
      case _ => None
  }

  /** A text read to its end, one character after the other. */
  function ReadAll(one: string -> Option<(char, nat)>, s: string): Option<string>
    decreases |s|
  {
    if s == "" then Some("")
    else
      var r := one(s);
      if r.None? || r.value.1 == 0 || r.value.1 > |s| then None
      else
        var rest := ReadAll(one, s[r.value.1..]);
        if rest.None? then None else Some([r.value.0] + rest.value)
  }

  function DecodeBody(s: string): Option<string> { ReadAll(DecodeOne, s) }

  function Decode(s: string): Option<string> {
    if |s| < 2 || s[0] != '"' || s[|s| - 1] != '"' then None else DecodeBody(s[1..|s| - 1])
  }

  // ---------------------------------------------------------------- round trip

  lemma EscapeDecodes(c: char, rest: string)
    ensures DecodeOne(Escape(c) + rest) == Some((c, |Escape(c)|))
  {
    var s := Escape(c) + rest;
    if Control(c) && c != '\n' && c != '\r' && c != '\t' {
      var hi, lo := c as int / 16, c as int % 16;
      var t := s[2..];
      assert t[0] == '0' && t[1] == '0' && t[2] == Hex(hi) && t[3] == Hex(lo);
      HexDigit(hi);
      HexDigit(lo);
      assert HexRun(t, 1) == Some(0);
      assert HexRun(t, 2) == Some(0);
      assert HexRun(t, 3) == Some(hi);
      assert HexRun(t, 4) == Some(hi * 16 + lo);
    }
  }

  lemma HexDigit(d: nat)
    requires d < 16
    ensures HexValue(Hex(d)) == Some(d)
  {
  }

  predicate Inverts(escape: char -> string, one: string -> Option<(char, nat)>, c: char, rest: string) {
    escape(c) != "" && one(escape(c) + rest) == Some((c, |escape(c)|))
  }

  /** Reading undoes printing as soon as it does so character by character, whatever follows. */
  lemma {:induction false} ReadUndoesPrint(escape: char -> string, one: string -> Option<(char, nat)>,
                                           s: string, rest: string)
    requires forall c, r :: Inverts(escape, one, c, r)
    requires ReadAll(one, rest).Some?
    ensures ReadAll(one, PrintAll(escape, s) + rest) == Some(s + ReadAll(one, rest).value)
    decreases |s|
  {
    if s == "" {
      assert PrintAll(escape, s) + rest == rest;
      assert s + ReadAll(one, rest).value == ReadAll(one, rest).value;
    } else {
      var n := |s| - 1;
      var c := s[n];
      var more := escape(c) + rest;
      assert more[|escape(c)|..] == rest;
      assert Inverts(escape, one, c, rest);
      assert ReadAll(one, more) == Some([c] + ReadAll(one, rest).value);
      ReadUndoesPrint(escape, one, s[..n], more);
      assert PrintAll(escape, s) + rest == PrintAll(escape, s[..n]) + more;
      assert s[..n] + ([c] + ReadAll(one, rest).value) == s + ReadAll(one, rest).value;
    }
  }

  /** Main result: for every string of Unicode scalar values, TOML reads the printed text back as that string. */
  lemma RoundTrip(s: string)
    ensures Decode(Print(s)) == Some(s)
  {
    forall c, r ensures Inverts(Escape, DecodeOne, c, r) {
      EscapeDecodes(c, r);
    }
    ReadUndoesPrint(Escape, DecodeOne, s, "");
    assert Body(s) + "" == Body(s) && s + "" == s;
    assert Print(s)[1..|Print(s)| - 1] == Body(s);
  }

  /** Different strings are printed differently. */
  lemma PrintIsInjective(s: string, t: string)
    requires Print(s) == Print(t)
    ensures s == t
  {
    RoundTrip(s);
    RoundTrip(t);
  }

  lemma EscapeIsClean(c: char)
    ensures forall i | 0 <= i < |Escape(c)| :: !Control(Escape(c)[i])
    ensures forall i | 0 <= i < |Escape(c)| && Escape(c)[i] == '"' :: c == '"' && i == 1
  {
  }

  /** Length of the run of backslashes that ends just before position i. */
  function Slashes(s: string, i: nat): nat
    requires i <= |s|
  {
    if i == 0 || s[i - 1] != '\\' then 0 else 1 + Slashes(s, i - 1)
  }

  lemma {:induction false} SlashesOfPrefix(s: string, t: string, i: nat)
    requires i <= |s|
    ensures Slashes(s + t, i) == Slashes(s, i)
  {
    if i > 0 { SlashesOfPrefix(s, t, i - 1); }
  }

  /** The backslashes at the end of the text pair up: its end lies outside every escape. */
  predicate Closed(s: string) { Slashes(s, |s|) % 2 == 0 }

  lemma EscapeEnds(c: char)
    ensures Escape(c) != "" && (c != '\\' ==> Escape(c)[|Escape(c)| - 1] != '\\')
  {
  }

  /** Appending one character's text to a closed text keeps it closed. */
  lemma EscapeCloses(s: string, c: char)
    requires Closed(s)
    ensures Closed(s + Escape(c))
  {
    var e := Escape(c);
    EscapeEnds(c);
    if c == '\\' {
      SlashesOfPrefix(s, e, |s|);
      assert Slashes(s + e, |s| + 2) == 1 + Slashes(s + e, |s| + 1) == 2 + Slashes(s + e, |s|);
    } else {
      assert (s + e)[|s + e| - 1] == e[|e| - 1];
    }
  }

  lemma {:induction false} QuoteIsEscaped(s: string)
    requires Closed(s)
    ensures Slashes(s + Escape('"'), |s| + 1) % 2 == 1
  {
    SlashesOfPrefix(s, Escape('"'), |s|);
  }

  /**
   The printed body has no raw control character, and every quote in it is escaped: the backslashes
   before it are odd in number, so the last of them is not itself escaped.
   */
  lemma {:induction false} BodyIsClean(s: string)
    ensures forall i | 0 <= i < |Body(s)| :: !Control(Body(s)[i])
    ensures forall i | 0 <= i < |Body(s)| && Body(s)[i] == '"' :: Slashes(Body(s), i) % 2 == 1
    ensures Closed(Body(s))
  {
    if s != "" {
      var before, c := Body(s[..|s| - 1]), s[|s| - 1];
      BodyIsClean(s[..|s| - 1]);
      EscapeIsClean(c);
      EscapeCloses(before, c);
      forall i | 0 <= i < |Body(s)|
        ensures !Control(Body(s)[i]) && (Body(s)[i] == '"' ==> Slashes(Body(s), i) % 2 == 1)
      {
        if i < |before| {
          SlashesOfPrefix(before, Escape(c), i);
        } else {
          assert Body(s)[i] == Escape(c)[i - |before|];
          if c == '"' { QuoteIsEscaped(before); }
        }
      }
    }
  }

  /** _toml_string: the loop over characters, appending each one's text. */
  method TomlQuote(value: string) returns (text: string)
    ensures text == Print(value)
    ensures Decode(text) == Some(value)
  {
    var escaped := "";
    var n := 0;
    while n < |value|
      invariant 0 <= n <= |value|
      invariant escaped == Body(value[..n])
    {
      var c := value[n];
      assert value[..n + 1][..n] == value[..n];
      if c == '\\' { escaped := escaped + "\\\\"; }
      else if c == '"' { escaped := escaped + "\\\""; }
      else if c == '\n' { escaped := escaped + "\\n"; }
      else if c == '\r' { escaped := escaped + "\\r"; }
      else if c == '\t' { escaped := escaped + "\\t"; }
      else if c < ' ' || c == 0x7F as char {
        escaped := escaped + ['\\', 'u', '0', '0', Hex(c as int / 16), Hex(c as int % 16)];
      } else { escaped := escaped + [c]; }
      n := n + 1;
    }
    assert value[..|value|] == value;
    text := "\"" + escaped + "\"";
    RoundTrip(value);
  }
}
