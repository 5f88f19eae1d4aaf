/** The snapshot text: `JSON.stringify(sr, null, 2)` for an object whose
    values are all strings, and a reader for that layout, which shows that
    distinct tables never serialize to the same text. */
module Json {
  import opened Tables

  /** A lower-case hexadecimal digit. */
  function HexDigit(n: nat): char
    requires n < 16
  {
    if n < 10 then ('0' as int + n) as char else ('a' as int + n - 10) as char
  }

  /** The value of a hexadecimal digit of either case. */
  function HexValue(c: char): (r: Option<nat>)
    ensures r.Some? ==> r.value < 16
  {
    if '0' <= c <= '9' then Some(c as int - '0' as int)
    else if 'a' <= c <= 'f' then Some(c as int - 'a' as int + 10)
    else if 'A' <= c <= 'F' then Some(c as int - 'A' as int + 10)
    else None
  }

  /** The escape `JSON.stringify` writes for one character of a string. */
  function EscapeChar(c: char): (r: string)
    ensures r != [] && r[0] != '"'
  {
    if c == '"' then "\\\""
    else if c == '\\' then "\\\\"
    else if c as int == 0x08 then "\\b"
    else if c as int == 0x0C then "\\f"
    else if c == '\n' then "\\n"
    else if c == '\r' then "\\r"
    else if c == '\t' then "\\t"
    else if c as int < 0x20 then "\\u00" + [HexDigit(c as int / 16), HexDigit(c as int % 16)]
    else [c]
  }

  function Escape(s: string): string
  {
    if s == [] then [] else EscapeChar(s[0]) + Escape(s[1..])
  }

  /** A JSON string literal. */
  function Quote(s: string): string
  {
    "\"" + Escape(s) + "\""
  }

  /** One property line at indentation two. */
  function Member(e: Entry): string
  {
    "  " + Quote(e.0) + ": " + Quote(e.1)
  }

  /** The property lines of a non-empty object, separated by `,` and a line break. */
  function Members(t: Table): string
    requires t != []
  {
    if |t| == 1 then Member(t[0]) else Member(t[0]) + ",\n" + Members(t[1..])
  }

  /** `JSON.stringify(t, null, 2)`. */
  function Serialize(t: Table): string
  {
    if t == [] then "{}" else "{\n" + Members(t) + "\n}"
  }

  /** Reads one possibly escaped character of a string body. */
  function ReadChar(s: string): (r: Option<(char, string)>)
    requires s != []
    ensures r.Some? ==> |r.value.1| < |s|
  {
    if s[0] != '\\' then Some((s[0], s[1..]))
    else if |s| < 2 then None
    else
      var c, rest := s[1], s[2..];
      if c == '"' || c == '\\' || c == '/' then Some((c, rest))
      else if c == 'b' then Some((0x08 as char, rest))
      else if c == 'f' then Some((0x0C as char, rest))
      else if c == 'n' then Some(('\n', rest))
      else if c == 'r' then Some(('\r', rest))
      else if c == 't' then Some(('\t', rest))
      else if c == 'u' && |rest| >= 4 then
        match (HexValue(rest[0]), HexValue(rest[1]), HexValue(rest[2]), HexValue(rest[3]))
        case (Some(d0), Some(d1), Some(d2), Some(d3)) =>
          var n := ((d0 * 16 + d1) * 16 + d2) * 16 + d3;
          if 0xD800 <= n < 0xE000 then None else Some((n as char, rest[4..]))
        case _ => None
      else None
  }

  /** Reads a string body up to its closing quote; gives the text and what
      follows the quote. */
  function ReadString(s: string): (r: Option<(string, string)>)
    ensures r.Some? ==> |r.value.1| < |s|
    decreases |s|
  {
    if s == [] then None
    else if s[0] == '"' then Some(([], s[1..]))
    else
      match ReadChar(s)
      case None => None
      case Some((c, rest)) =>
        match ReadString(rest)
        case None => None
        case Some((w, after)) => Some(([c] + w, after))
  }

  /** Reads the property lines of a non-empty object up to its closing brace. */
  function ParseMembers(s: string): Option<Table>
    decreases |s|
  {
    if |s| < 3 || s[..3] != "  \"" then None
    else
      match ReadString(s[3..])
      case None => None
      case Some((k, r1)) =>
        if |r1| < 3 || r1[..3] != ": \"" then None
        else
          match ReadString(r1[3..])
          case None => None
          case Some((v, r2)) =>
            if r2 == "\n}" then Some([(k, v)])
            else if |r2| >= 2 && r2[..2] == ",\n" then
              match ParseMembers(r2[2..])
              case None => None
              case Some(t) => Some([(k, v)] + t)
            else None
  }

  /** Reads a serialized table back. */
  function Parse(s: string): Option<Table>
  {
    if s == "{}" then Some([])
    else if |s| >= 2 && s[..2] == "{\n" then ParseMembers(s[2..])
    else None
  }

  lemma {:induction false} HexRoundTrip(n: nat)
    requires n < 16
    ensures HexValue(HexDigit(n)) == Some(n)
  {
  }

  /** Each escape reads back as the character it encodes. */
  lemma {:induction false} ReadEscapedChar(c: char, tail: string)
    ensures ReadChar(EscapeChar(c) + tail) == Some((c, tail))
  {
    var s := EscapeChar(c) + tail;
    if c as int < 0x20 && c as int != 0x08 && c as int != 0x0C && c != '\n' && c != '\r' && c != '\t' {
      var hi, lo := c as int / 16, c as int % 16;
      HexRoundTrip(0);
      HexRoundTrip(hi);
      HexRoundTrip(lo);
      assert s == ['\\', 'u', '0', '0', HexDigit(hi), HexDigit(lo)] + tail;
      assert s[2..][4..] == tail;
    } else if c == '"' || c == '\\' || c as int == 0x08 || c as int == 0x0C || c == '\n' || c == '\r' || c == '\t' {
      assert s[2..] == tail;
    } else {
      assert s[1..] == tail;
    }
  }

  /** An escaped string followed by its closing quote reads back as itself. */
  lemma {:induction false} ReadQuoted(s: string, tail: string)
    ensures ReadString(Escape(s) + "\"" + tail) == Some((s, tail))
  {
    var text := Escape(s) + "\"" + tail;
    if s == [] {
      assert text == "\"" + tail;
    } else {
      var after := Escape(s[1..]) + "\"" + tail;
      assert text == EscapeChar(s[0]) + after;
      ReadEscapedChar(s[0], after);
      ReadQuoted(s[1..], tail);
      assert [s[0]] + s[1..] == s;
    }
  }

  /** A property line is the quoted key, `: ` and the quoted value. */
  lemma {:induction false} MemberLayout(k: string, v: string, end: string)
    ensures Member((k, v)) + end == "  \"" + Escape(k) + "\"" + (": \"" + Escape(v) + "\"" + end)
  {
  }

  lemma {:induction false} SkipPrefix(p: string, x: string, rest: string)
    ensures var s := p + x + "\"" + rest; s[..|p|] == p && s[|p|..] == x + "\"" + rest
  {
  }

  /** A property line reads as its key and value, followed by `end`. */
  lemma {:induction false} ReadMember(k: string, v: string, end: string)
    ensures var s := Member((k, v)) + end;
      && |s| >= 3 && s[..3] == "  \""
      && var r1 := ": \"" + Escape(v) + "\"" + end;
      && ReadString(s[3..]) == Some((k, r1))
      && |r1| >= 3 && r1[..3] == ": \""
      && ReadString(r1[3..]) == Some((v, end))
  {
    var r1 := ": \"" + Escape(v) + "\"" + end;
    MemberLayout(k, v, end);
    SkipPrefix("  \"", Escape(k), r1);
    ReadQuoted(k, r1);
    SkipPrefix(": \"", Escape(v), end);
    ReadQuoted(v, end);
  }

  /** The last property line reads as a one-entry table. */
  lemma {:induction false} ParseLastMember(k: string, v: string)
    ensures ParseMembers(Member((k, v)) + "\n}") == Some([(k, v)])
  {
    ReadMember(k, v, "\n}");
  }

  /** A property line followed by a separator reads as that entry in front of
      whatever the rest reads as. */
  lemma {:induction false} ParseNextMember(k: string, v: string, rest: string)
    ensures ParseMembers(Member((k, v)) + ",\n" + rest) ==
      match ParseMembers(rest)
      case None => None
      case Some(t) => Some([(k, v)] + t)
  {
    var end := ",\n" + rest;
    assert Member((k, v)) + ",\n" + rest == Member((k, v)) + end;
    ReadMember(k, v, end);
    assert end != "\n}" by {
      assert end[0] == ',';
    }
    assert end[..2] == ",\n" && end[2..] == rest;
  }

  /** The property lines read back as the entries they were written from. */
  lemma {:induction false} MembersRoundTrip(t: Table)
    requires t != []
    ensures ParseMembers(Members(t) + "\n}") == Some(t)
  {
    if |t| == 1 {
      ParseLastMember(t[0].0, t[0].1);
      assert t == [t[0]];
    } else {
      MembersRoundTrip(t[1..]);
      MembersRoundTripStep(t);
    }
  }

  /** The first property line reads back in front of the others. */
  lemma {:induction false} MembersRoundTripStep(t: Table)
    requires |t| > 1
    requires ParseMembers(Members(t[1..]) + "\n}") == Some(t[1..])
    ensures ParseMembers(Members(t) + "\n}") == Some(t)
  {
    MembersSplit(t);
    ParseNextMember(t[0].0, t[0].1, Members(t[1..]) + "\n}");
    assert [t[0]] + t[1..] == t;
  }

  lemma {:induction false} MembersSplit(t: Table)
    requires |t| > 1
    ensures Members(t) + "\n}" == Member(t[0]) + ",\n" + (Members(t[1..]) + "\n}")
  {
    Regroup(Member(t[0]), Members(t[1..]));
  }

  lemma {:induction false} Regroup(a: string, b: string)
    ensures a + ",\n" + b + "\n}" == a + ",\n" + (b + "\n}")
  {
  }

  /** Reading a snapshot gives back the table it was written from. */
  lemma {:induction false} RoundTrip(t: Table)
    ensures Parse(Serialize(t)) == Some(t)
  {
    if t != [] {
      SerializeLayout(t);
      MembersRoundTrip(t);
    }
  }

  /** A non-empty table is written as `{`, a line break, its property lines,
      a line break and `}`. */
  lemma {:induction false} SerializeLayout(t: Table)
    requires t != []
    ensures var s := Serialize(t);
      s != "{}" && |s| >= 2 && s[..2] == "{\n" && s[2..] == Members(t) + "\n}"
  {
    Braced(Members(t));
  }

  lemma {:induction false} Braced(m: string)
    ensures var s := "{\n" + m + "\n}";
      s != "{}" && |s| >= 2 && s[..2] == "{\n" && s[2..] == m + "\n}"
  {
    var s := "{\n" + m + "\n}";
    assert s[1] == '\n';
    assert s[..2] == "{\n";
    assert s[2..] == m + "\n}";
  }

  /** Two tables have the same snapshot text only when they are equal: same
      keys and values in the same order. */
  lemma {:induction false} SerializeInjective(a: Table, b: Table)
    requires Serialize(a) == Serialize(b)
    ensures a == b
  {
    RoundTrip(a);
    RoundTrip(b);
  }
}
