/** The timestamp used in archive file names: the clock text with its first
    space turned into `_` and every `:` into `-`, so that
    `2025-06-22 12:05:00` becomes `2025-06-22_12-05-00`. */
module Timestamp {

  /** The position of the first `c` in `s`, or `|s|` when there is none. */
  function IndexOf(s: string, c: char): (r: nat)
    ensures r <= |s|
    ensures r < |s| ==> s[r] == c
    ensures forall j :: 0 <= j < r ==> s[j] != c
  {
    if s == [] then 0 else if s[0] == c then 0 else 1 + IndexOf(s[1..], c)
  }

  /** `s.replace(' ', '_')`: a string pattern replaces its first occurrence only. */
  function ReplaceFirstSpace(s: string): string
  {
    if s == [] then []
    else if s[0] == ' ' then ['_'] + s[1..]
    else [s[0]] + ReplaceFirstSpace(s[1..])
  }

  /** `s.replace(/:/g, '-')`. */
  function ReplaceColons(s: string): string
  {
    if s == [] then [] else [if s[0] == ':' then '-' else s[0]] + ReplaceColons(s[1..])
  }

  /** The file-name form of the clock text. */
  function FileStamp(clock: string): string
  {
    ReplaceColons(ReplaceFirstSpace(clock))
  }

  lemma {:induction false} ReplaceFirstSpaceAt(s: string, i: nat)
    requires i < |s|
    ensures |ReplaceFirstSpace(s)| == |s|
    ensures ReplaceFirstSpace(s)[i] == if i == IndexOf(s, ' ') then '_' else s[i]
  {
    if s[0] != ' ' {
      if i > 0 {
        ReplaceFirstSpaceAt(s[1..], i - 1);
      } else if |s| > 1 {
        ReplaceFirstSpaceAt(s[1..], 0);
      }
    }
  }

  lemma {:induction false} ReplaceColonsAt(s: string, i: nat)
    requires i < |s|
    ensures |ReplaceColons(s)| == |s|
    ensures ReplaceColons(s)[i] == if s[i] == ':' then '-' else s[i]
  {
    if i > 0 {
      ReplaceColonsAt(s[1..], i - 1);
    } else if |s| > 1 {
      ReplaceColonsAt(s[1..], 0);
    }
  }

  /** The file stamp has the clock text's length; position by position it is
      `_` at the first space, `-` at every colon and the clock text elsewhere,
      so no colon is left and later spaces stay. */
  lemma {:induction false} FileStampAt(clock: string)
    ensures |FileStamp(clock)| == |clock|
    ensures forall i :: 0 <= i < |clock| ==>
      FileStamp(clock)[i] == (if i == IndexOf(clock, ' ') then '_'
                              else if clock[i] == ':' then '-' else clock[i])
    ensures ':' !in FileStamp(clock)
  {
    var mid := ReplaceFirstSpace(clock);
    if clock == [] {
      assert FileStamp(clock) == [];
    } else {
      ReplaceFirstSpaceAt(clock, 0);
      ReplaceColonsAt(mid, 0);
      forall i | 0 <= i < |clock|
        ensures FileStamp(clock)[i] == (if i == IndexOf(clock, ' ') then '_'
                                        else if clock[i] == ':' then '-' else clock[i])
      {
        ReplaceFirstSpaceAt(clock, i);
        ReplaceColonsAt(mid, i);
      }
    }
  }
}
