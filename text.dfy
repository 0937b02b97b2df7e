/**
 * String helpers with the meaning Python gives the corresponding built-ins:
 * `str.startswith`, `str.lower` (on ASCII letters), the `in` substring test,
 * `str.isspace`, `str(n)` on integers and `str.join`.
 */
module Text {

  predicate StartsWith(s: string, prefix: string)
  {
    |prefix| <= |s| && s[..|prefix|] == prefix
  }

  /** `c.lower()` for the ASCII letters; every other character is kept. */
  function LowerChar(c: char): (r: char)
    ensures 'A' <= c <= 'Z' ==> r as int == c as int + 32
    ensures !('A' <= c <= 'Z') ==> r == c
  {
    if 'A' <= c <= 'Z' then (c as int + 32) as char else c
  }

  function Lower(s: string): (r: string)
    ensures |r| == |s|
    ensures forall i :: 0 <= i < |s| ==> r[i] == LowerChar(s[i])
  {
    seq(|s|, i requires 0 <= i < |s| => LowerChar(s[i]))
  }

  /** `part` sits in `text` starting at index `i`. */
  predicate OccursAt(text: string, part: string, i: int)
  {
    0 <= i && i + |part| <= |text| && text[i..i + |part|] == part
  }

  /** Python's `part in text`: `part` occurs as a contiguous slice of `text`. */
  function Contains(text: string, part: string): (r: bool)
    ensures r <==> exists i :: OccursAt(text, part, i)
    decreases |text|
  {
    if StartsWith(text, part) then
      assert OccursAt(text, part, 0);
      true
    else if |text| == 0 then
      assert forall i :: !OccursAt(text, part, i);
      false
    else
      var rest := Contains(text[1..], part);
      assert rest ==> exists i :: OccursAt(text, part, i) by {
        if rest {
          var j :| OccursAt(text[1..], part, j);
          assert text[j + 1..j + 1 + |part|] == text[1..][j..j + |part|];
          assert OccursAt(text, part, j + 1);
        }
      }
      assert (exists i :: OccursAt(text, part, i)) ==> rest by {
        if exists i :: OccursAt(text, part, i) {
          var i :| OccursAt(text, part, i);
          assert i != 0;
          assert text[1..][i - 1..i - 1 + |part|] == text[i..i + |part|];
          assert OccursAt(text[1..], part, i - 1);
        }
      }
      rest
  }

  /** `part.lower() in text.lower()`. */
  predicate ContainsIgnoringCase(text: string, part: string)
  {
    Contains(Lower(text), Lower(part))
  }

  /** `any(tag in have for tag in wanted)`. */
  predicate AnyTagIn(wanted: seq<string>, have: seq<string>)
  {
    exists t | t in wanted :: t in have
  }

  /**
   * The code-point ranges of the characters Python's `str.isspace` and the
   * regular expression class `\s` (on `str` patterns) accept: tab to
   * carriage return, the four separators and space, NEL, no-break space,
   * ogham space, the en quad to hair space block, the line and paragraph
   * separators, narrow no-break, medium mathematical and ideographic space.
   */
  const SpaceRanges: seq<(int, int)> :=
    [(9, 13), (28, 32), (0x85, 0x85), (0xA0, 0xA0), (0x1680, 0x1680), (0x2000, 0x200A),
     (0x2028, 0x2029), (0x202F, 0x202F), (0x205F, 0x205F), (0x3000, 0x3000)]

  /** `n` lies in one of the closed ranges `rs`. */
  predicate InRanges(n: int, rs: seq<(int, int)>)
  {
    |rs| > 0 && ((rs[0].0 <= n <= rs[0].1) || InRanges(n, rs[1..]))
  }

  /** `c.isspace()`. */
  predicate IsSpace(c: char)
  {
    InRanges(c as int, SpaceRanges)
  }

  function DigitChar(d: nat): char
    requires d < 10
  {
    "0123456789"[d]
  }

  /** `str(n)` for a non-negative integer. */
  function NatToString(n: nat): (r: string)
    ensures |r| >= 1
    decreases n
  {
    if n < 10 then [DigitChar(n)] else NatToString(n / 10) + [DigitChar(n % 10)]
  }

  /** `str(n)`. */
  function IntToString(n: int): string
  {
    if n < 0 then "-" + NatToString(-n) else NatToString(n)
  }

  /** `sep.join(parts)`. */
  function Join(sep: string, parts: seq<string>): string
  {
    if |parts| == 0 then ""
    else if |parts| == 1 then parts[0]
    else parts[0] + sep + Join(sep, parts[1..])
  }

}
