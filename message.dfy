/** The Telegram text announcing a changed snapshot: a header naming the coin,
    a timestamp line, a blank line, then one bullet per table entry. */
module Message {
  import opened Tables

  /** The header line, `📈 *<coin> 支撐 / 阻力更新*`. */
  function Header(coin: string): string
  {
    "📈 *" + coin + " 支撐 / 阻力更新*"
  }

  /** The timestamp line. */
  function Stamp(tsText: string): string
  {
    "🕒 " + tsText
  }

  /** The bullet line of one entry, `• *<key>*：<value>`. */
  function Bullet(e: Entry): string
  {
    "• *" + e.0 + "*：" + e.1
  }

  /** One bullet per entry, in table order. */
  function Bullets(t: Table): (ls: seq<string>)
    ensures |ls| == |t|
    ensures forall i :: 0 <= i < |t| ==> ls[i] == Bullet(t[i])
  {
    seq(|t|, i requires 0 <= i < |t| => Bullet(t[i]))
  }

  /** `ls.join('\n')`. */
  function JoinLines(ls: seq<string>): string
  {
    if ls == [] then [] else if |ls| == 1 then ls[0] else ls[0] + "\n" + JoinLines(ls[1..])
  }

  /** The message sent for a changed table. */
  function Compose(coin: string, tsText: string, t: Table): string
  {
    Header(coin) + "\n" + Stamp(tsText) + "\n\n" + JoinLines(Bullets(t))
  }

  /** `s.split('\n')`: the pieces of `s` between line breaks. */
  function Lines(s: string): (r: seq<string>)
    ensures |r| >= 1
  {
    if s == [] then [[]]
    else if s[0] == '\n' then [[]] + Lines(s[1..])
    else
      var rest := Lines(s[1..]);
      [[s[0]] + rest[0]] + rest[1..]
  }

  predicate OneLine(s: string)
  {
    '\n' !in s
  }

  /** Text without a line break is a single line. */
  lemma {:induction false} LinesOfOneLine(a: string)
    requires OneLine(a)
    ensures Lines(a) == [a]
  {
    if a != [] {
      LinesOfOneLine(a[1..]);
      assert [a[0]] + a[1..] == a;
    }
  }

  /** A line break ends the first line; the rest splits on its own. */
  lemma {:induction false} LinesAfterBreak(a: string, b: string)
    requires OneLine(a)
    ensures Lines(a + "\n" + b) == [a] + Lines(b)
  {
    if a == [] {
      assert a + "\n" + b == "\n" + b;
      assert ("\n" + b)[1..] == b;
    } else {
      var s := a + "\n" + b;
      assert s[1..] == a[1..] + "\n" + b;
      LinesAfterBreak(a[1..], b);
      assert [a[0]] + a[1..] == a;
    }
  }

  /** Joining lines that hold no line break and splitting again gives the
      lines back. */
  lemma {:induction false} LinesOfJoin(ls: seq<string>)
    requires ls != []
    requires forall i :: 0 <= i < |ls| ==> OneLine(ls[i])
    ensures Lines(JoinLines(ls)) == ls
  {
    if |ls| == 1 {
      LinesOfOneLine(ls[0]);
    } else {
      LinesAfterBreak(ls[0], JoinLines(ls[1..]));
      LinesOfJoin(ls[1..]);
      assert [ls[0]] + ls[1..] == ls;
    }
  }

  /** When no part holds a line break of its own, the message reads line by
      line as: the header, the timestamp line, an empty line, then one bullet
      per entry in table order (a single empty line for an empty table). */
  lemma {:induction false} MessageLines(coin: string, tsText: string, t: Table)
    requires OneLine(coin) && OneLine(tsText)
    requires forall i :: 0 <= i < |t| ==> OneLine(t[i].0) && OneLine(t[i].1)
    ensures Lines(Compose(coin, tsText, t)) ==
            [Header(coin), Stamp(tsText), ""] + (if t == [] then [""] else Bullets(t))
  {
    var body := JoinLines(Bullets(t));
    var msg := Compose(coin, tsText, t);
    assert OneLine(Header(coin)) && OneLine(Stamp(tsText)) by {
      assert Header(coin) == "📈 *" + coin + " 支撐 / 阻力更新*";
      assert Stamp(tsText) == "🕒 " + tsText;
    }
    assert msg == Header(coin) + "\n" + (Stamp(tsText) + "\n" + ([] + "\n" + body));
    LinesAfterBreak(Header(coin), Stamp(tsText) + "\n" + ([] + "\n" + body));
    LinesAfterBreak(Stamp(tsText), [] + "\n" + body);
    LinesAfterBreak([], body);
    if t == [] {
      assert body == [];
    } else {
      var bs := Bullets(t);
      forall i | 0 <= i < |bs|
        ensures OneLine(bs[i])
      {
        assert bs[i] == "• *" + t[i].0 + "*：" + t[i].1;
      }
      LinesOfJoin(bs);
    }
  }
}
