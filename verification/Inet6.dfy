/**
  IPv6 addresses as text (section 2.2 of RFC 4291): the longest run of zero words is printed as
  "::", the leftmost of several (sections 4.2.2 and 4.2.3 of RFC 5952), and the last two words
  may be printed as an IPv4 address.
 */
module Inet6 {
  import opened Basics
  import Inet4

  type Hextet = w: int | 0 <= w < 0x1_0000

  // ----- words and bytes -----

  function WordsOf(a: seq<Byte>): (r: seq<Hextet>)
    requires |a| % 2 == 0
    ensures |r| == |a| / 2 && forall i :: 0 <= i < |r| ==> r[i] == 256 * a[2 * i] as int + a[2 * i + 1] as int
  {
    seq(|a| / 2, (i: int) requires 0 <= i < |a| / 2 => 256 * a[2 * i] as int + a[2 * i + 1] as int)
  }

  function BytesOf(ws: seq<Hextet>): (r: seq<Byte>)
    ensures |r| == 2 * |ws|
    ensures forall i :: 0 <= i < |r| ==> r[i] == if i % 2 == 0 then ws[i / 2] / 256 else ws[i / 2] % 256
  {
    seq(2 * |ws|, (i: int) requires 0 <= i < 2 * |ws| => if i % 2 == 0 then ws[i / 2] / 256 else ws[i / 2] % 256)
  }

  lemma BytesOfWords(a: seq<Byte>)
    requires |a| % 2 == 0
    ensures BytesOf(WordsOf(a)) == a
  {
    forall i | 0 <= i < |a| ensures BytesOf(WordsOf(a))[i] == a[i] {
      var w := WordsOf(a)[i / 2];
      assert i == 2 * (i / 2) + i % 2;
    }
  }

  lemma WordsOfBytes(ws: seq<Hextet>)
    ensures WordsOf(BytesOf(ws)) == ws
  {
    forall i | 0 <= i < |ws| ensures WordsOf(BytesOf(ws))[i] == ws[i] {
      var b := BytesOf(ws);
      assert b[2 * i] == ws[i] / 256 && b[2 * i + 1] == ws[i] % 256;
    }
  }

  // ----- the longest run of zeros -----

  /** All words of a run are zero. */
  ghost predicate Zero(ws: seq<Hextet>, base: int, len: int) {
    0 <= base && 0 <= len && base + len <= |ws| && forall i :: base <= i < base + len ==> ws[i] == 0
  }

  datatype Run = Run(base: int, len: int)

  /** The leftmost of the longest runs, if it has at least two words. */
  ghost predicate IsBest(ws: seq<Hextet>, best: Run) {
    if best.base == -1 then forall b, l :: Zero(ws, b, l) ==> l < 2
    else
      && best.len >= 2 && Zero(ws, best.base, best.len)
      && (forall b, l :: Zero(ws, b, l) ==> l <= best.len)
      && forall b :: Zero(ws, b, best.len) ==> best.base <= b
  }

  /** `best` is the leftmost of the longest runs that lie before `end`, or there is none. */
  ghost predicate BestBefore(ws: seq<Hextet>, end: int, best: Run) {
    if best.base == -1 then forall b, l :: Zero(ws, b, l) && b + l <= end ==> l == 0
    else
      && best.len >= 1 && Zero(ws, best.base, best.len) && best.base + best.len <= end
      && (forall b, l :: Zero(ws, b, l) && b + l <= end ==> l <= best.len)
      && forall b :: Zero(ws, b, best.len) && b + best.len <= end ==> best.base <= b
  }

  /** `cur` is the run that reaches up to `i`, if there is one. */
  ghost predicate Reaches(ws: seq<Hextet>, i: int, cur: Run) {
    && 0 <= i <= |ws|
    && if cur.base == -1 then i == 0 || ws[i - 1] != 0
       else
         && cur.len >= 1 && cur.base + cur.len == i && Zero(ws, cur.base, cur.len)
         && (cur.base == 0 || ws[cur.base - 1] != 0)
  }

  /** Where the runs that have ended stop. */
  function Ended(i: int, cur: Run): int {
    if cur.base == -1 then i else cur.base
  }

  function Better(best: Run, cur: Run): Run {
    if cur.base != -1 && (best.base == -1 || cur.len > best.len) then cur else best
  }

  /** A run of zeros that ends by `i` has ended before the current run, or is part of it. */
  lemma InOrBefore(ws: seq<Hextet>, i: int, cur: Run, b: int, l: int)
    requires Reaches(ws, i, cur) && Zero(ws, b, l) && l > 0 && b + l <= i
    ensures b + l <= Ended(i, cur) || (cur.base <= b && l <= cur.len && (l == cur.len ==> b == cur.base))
  {
  }

  /** When the current run is over, the better of it and the best so far is the best. */
  lemma RunOver(ws: seq<Hextet>, i: int, best: Run, cur: Run)
    requires Reaches(ws, i, cur) && BestBefore(ws, Ended(i, cur), best)
    ensures BestBefore(ws, i, Better(best, cur))
  {
    var r := Better(best, cur);
    forall b, l | Zero(ws, b, l) && b + l <= i
      ensures l == 0 || (r.base != -1 && l <= r.len && (l == r.len ==> r.base <= b))
    {
      if l > 0 {
        InOrBefore(ws, i, cur, b, l);
      }
    }
  }

  lemma PastNonZero(ws: seq<Hextet>, i: int, best: Run)
    requires 0 <= i < |ws| && ws[i] != 0 && BestBefore(ws, i, best)
    ensures BestBefore(ws, i + 1, best)
  {
    forall b, l | Zero(ws, b, l) && b + l <= i + 1 && l > 0 ensures b + l <= i {
    }
  }

  method FindRun(ws: seq<Hextet>) returns (best: Run)
    ensures IsBest(ws, best)
  {
    best := Run(-1, 0);
    var cur := Run(-1, 0);
    for i := 0 to |ws|
      invariant Reaches(ws, i, cur) && BestBefore(ws, Ended(i, cur), best)
    {
      if ws[i] == 0 {
        if cur.base == -1 {
          cur := Run(i, 1);
        } else {
          cur := Run(cur.base, cur.len + 1);
        }
      } else {
        RunOver(ws, i, best, cur);
        best := Better(best, cur);
        PastNonZero(ws, i, best);
        cur := Run(-1, cur.len);
      }
    }
    RunOver(ws, |ws|, best, cur);
    best := Better(best, cur);
    if best.base != -1 && best.len < 2 {
      best := Run(-1, best.len);
    }
  }

  // ----- printing -----

  function Hex(w: Hextet): (r: string)
    ensures 1 <= |r| <= 4
  {
    if w < 0x10 then [Inet4.Digits[w]]
    else if w < 0x100 then [Inet4.Digits[w / 16], Inet4.Digits[w % 16]]
    else if w < 0x1000 then [Inet4.Digits[w / 256], Inet4.Digits[w / 16 % 16], Inet4.Digits[w % 16]]
    else [Inet4.Digits[w / 4096], Inet4.Digits[w / 256 % 16], Inet4.Digits[w / 16 % 16], Inet4.Digits[w % 16]]
  }

  function Join(ws: seq<Hextet>): (r: string) {
    if ws == [] then "" else if |ws| == 1 then Hex(ws[0]) else Hex(ws[0]) + ":" + Join(ws[1..])
  }

  /** The last two words are printed as an IPv4 address. */
  predicate Embedded(ws: seq<Hextet>, best: Run)
    requires |ws| == 8
  {
    best.base == 0 && (best.len == 6 || (best.len == 5 && ws[5] == 0xffff))
  }

  function AfterRun(ws: seq<Hextet>, best: Run): (r: string)
    requires |ws| == 8 && 0 <= best.base && 0 <= best.len && best.base + best.len <= 8
  {
    if !Embedded(ws, best) then Join(ws[best.base + best.len..])
    else if best.len == 6 then Inet4.Dotted(BytesOf(ws[6..]))
    else Hex(ws[5]) + ":" + Inet4.Dotted(BytesOf(ws[6..]))
  }

  /** The text of an address in which a run of zeros, or none, is left out. */
  function Text(ws: seq<Hextet>, best: Run): (r: string)
    requires |ws| == 8 && (best.base == -1 || (0 <= best.base && 0 <= best.len && best.base + best.len <= 8))
  {
    if best.base == -1 then Join(ws) else Join(ws[..best.base]) + "::" + AfterRun(ws, best)
  }

  /** A decimal digit or one of the lower-case letters of hexadecimal numbers. */
  predicate Plain(c: char) {
    '0' <= c <= '9' || 'a' <= c <= 'f'
  }

  /** A word is printed in lower case and without leading zeros. */
  lemma HexIsLower(w: Hextet)
    ensures forall i :: 0 <= i < |Hex(w)| ==> Plain(Hex(w)[i])
    ensures |Hex(w)| > 1 ==> Hex(w)[0] != '0'
  {
    assert Inet4.Digits == ['0', '1', '2', '3', '4', '5', '6', '7', '8', '9', 'a', 'b', 'c', 'd', 'e', 'f'];
    assert forall d: nat :: d < 16 ==> Plain(Inet4.Digits[d]) && (d > 0 ==> Inet4.Digits[d] != '0');
  }

  lemma {:induction false} JoinIsPlain(ws: seq<Hextet>)
    ensures forall i :: 0 <= i < |Join(ws)| ==> Plain(Join(ws)[i]) || Join(ws)[i] == ':'
  {
    hide Hex, Plain;
    if ws != [] {
      HexIsLower(ws[0]);
      JoinIsPlain(ws[1..]);
    }
  }

  lemma DottedIsPlain(a: seq<Byte>)
    requires |a| == 4
    ensures forall i :: 0 <= i < |Inet4.Dotted(a)| ==> Plain(Inet4.Dotted(a)[i]) || Inet4.Dotted(a)[i] == '.'
    ensures '.' in Inet4.Dotted(a)
  {
    hide Inet4.DecimalText, Plain;
    DecimalIsPlain(a[0]);
    DecimalIsPlain(a[1]);
    DecimalIsPlain(a[2]);
    DecimalIsPlain(a[3]);
    assert Inet4.Dotted(a)[|Inet4.DecimalText(a[0])|] == '.';
  }

  lemma DecimalIsPlain(n: nat)
    requires n < 256
    ensures forall i :: 0 <= i < |Inet4.DecimalText(n)| ==> Plain(Inet4.DecimalText(n)[i])
  {
    assert Inet4.Digits == ['0', '1', '2', '3', '4', '5', '6', '7', '8', '9', 'a', 'b', 'c', 'd', 'e', 'f'];
    assert forall d: nat :: d < 16 ==> Plain(Inet4.Digits[d]);
  }

  /**
    Letters are in lower case; and there are dots exactly if the run that is left out is that of the
    first six words, or of the first five before the word ffff.
   */
  lemma TextIsCanonical(ws: seq<Hextet>, best: Run)
    requires |ws| == 8 && (best.base == -1 || (0 <= best.base && 0 <= best.len && best.base + best.len <= 8))
    ensures forall i :: 0 <= i < |Text(ws, best)| ==> Plain(Text(ws, best)[i]) || Text(ws, best)[i] in {':', '.'}
    ensures '.' in Text(ws, best) <==>
      best.base == 0 && (best.len == 6 || (best.len == 5 && ws[5] == 0xffff))
  {
    hide Hex, Join, Inet4.Dotted;
    JoinIsPlain(ws);
    if best.base != -1 {
      JoinIsPlain(ws[..best.base]);
      JoinIsPlain(ws[best.base + best.len..]);
      if Embedded(ws, best) {
        DottedIsPlain(BytesOf(ws[6..]));
        HexIsLower(ws[5]);
        var head, tail := Join(ws[..best.base]) + "::", AfterRun(ws, best);
        assert tail == (if best.len == 6 then "" else Hex(ws[5]) + ":") + Inet4.Dotted(BytesOf(ws[6..]));
        assert '.' in tail && Text(ws, best) == head + tail;
      }
    }
  }

  lemma {:induction false} JoinAppend(ws: seq<Hextet>, w: Hextet)
    ensures Join(ws + [w]) == if ws == [] then Hex(w) else Join(ws) + ":" + Hex(w)
  {
    if ws != [] {
      assert (ws + [w])[1..] == ws[1..] + [w];
      JoinAppend(ws[1..], w);
      if |ws| > 1 {
        assert Hex(ws[0]) + ":" + (Join(ws[1..]) + ":" + Hex(w)) == Hex(ws[0]) + ":" + Join(ws[1..]) + ":" + Hex(w);
      } else {
        assert ws[1..] == [];
      }
    }
  }

  /** What has been printed when the words before `i` have been dealt with. */
  function Printed(ws: seq<Hextet>, best: Run, i: int): (r: string)
    requires |ws| == 8 && 0 <= i <= 8
    requires (best.base == -1 || (0 <= best.base && 2 <= best.len && best.base + best.len <= 8))
  {
    if best.base == -1 || i <= best.base then Join(ws[..i])
    else if i < best.base + best.len || i == best.base + best.len then Join(ws[..best.base]) + ":"
    else Join(ws[..best.base]) + "::" + Join(ws[best.base + best.len..i])
  }

  lemma PrintedMore(ws: seq<Hextet>, best: Run, i: int)
    requires |ws| == 8 && 0 <= i < 8
    requires (best.base == -1 || (0 <= best.base && 2 <= best.len && best.base + best.len <= 8))
    ensures best.base != -1 && best.base <= i < best.base + best.len ==>
      Printed(ws, best, i + 1) == if i == best.base then Printed(ws, best, i) + ":" else Printed(ws, best, i)
    ensures !(best.base != -1 && best.base <= i < best.base + best.len) ==>
      Printed(ws, best, i + 1) == (if i != 0 then Printed(ws, best, i) + ":" else Printed(ws, best, i)) + Hex(ws[i])
  {
    hide Hex;
    if best.base == -1 || i < best.base {
      assert ws[..i + 1] == ws[..i] + [ws[i]];
      JoinAppend(ws[..i], ws[i]);
    } else if i >= best.base + best.len {
      var tail := ws[best.base + best.len..i];
      assert ws[best.base + best.len..i + 1] == tail + [ws[i]];
      JoinAppend(tail, ws[i]);
      var head := Join(ws[..best.base]);
      if tail == [] {
        assert head + ":" + ":" == head + "::";
      } else {
        assert head + "::" + (Join(tail) + ":" + Hex(ws[i])) == head + "::" + Join(tail) + ":" + Hex(ws[i]);
      }
    }
  }

  method Format(ws: seq<Hextet>, best: Run) returns (text: string)
    requires |ws| == 8 && (best.base == -1 || (0 <= best.base && 2 <= best.len && best.base + best.len <= 8))
    ensures text == Text(ws, best)
  {
    text := "";
    var i := 0;
    while i < 8
      invariant 0 <= i <= 8 && text == Printed(ws, best, i) && (i > 6 ==> best.base == -1 || !Embedded(ws, best))
    {
      PrintedMore(ws, best, i);
      if best.base != -1 && best.base <= i < best.base + best.len {
        if i == best.base {
          text := text + ":";
        }
      } else {
        if i != 0 {
          text := text + ":";
        }
        assert i == 6 && best.base == 0 ==> best.len != 7; // so the test for a run of seven words never succeeds
        if i == 6 && best.base == 0 && (best.len == 6 || (best.len == 5 && ws[5] == 0xffff)) {
          EmbeddedText(ws, best);
          TextFits(ws, best);
          var dotted := Inet4.Ntop4(BytesOf(ws[6..]), 46 - |text|);
          text := text + dotted.value;
          return;
        }
        text := text + Hex(ws[i]);
      }
      i := i + 1;
    }
    if best.base != -1 && best.base + best.len == 8 {
      text := text + ":";
    }
    FinishedText(ws, best);
  }

  lemma EmbeddedText(ws: seq<Hextet>, best: Run)
    requires |ws| == 8 && Embedded(ws, best)
    ensures Printed(ws, best, 6) + ":" + Inet4.Dotted(BytesOf(ws[6..])) == Text(ws, best)
  {
    hide Hex;
    if best.len == 5 {
      assert ws[5..6] == [ws[5]];
    }
  }

  lemma FinishedText(ws: seq<Hextet>, best: Run)
    requires |ws| == 8 && (best.base == -1 || (0 <= best.base && 2 <= best.len && best.base + best.len <= 8))
    requires best.base == -1 || !Embedded(ws, best)
    ensures Text(ws, best) == if best.base != -1 && best.base + best.len == 8 then Printed(ws, best, 8) + ":"
      else Printed(ws, best, 8)
  {
    hide Hex;
    assert ws[..8] == ws;
    if best.base != -1 {
      assert ws[best.base + best.len..8] == ws[best.base + best.len..];
    }
  }

  /** What a buffer of `size` characters takes of a text, with room for the terminator. */
  function Copied(text: string, size: nat): (r: string) {
    if |text| < size then text else if size == 0 then "" else text[..size - 1]
  }

  /** Copy a text into a buffer; a buffer of size 0 takes nothing, and that is no failure. */
  method Strscpy(text: string, size: nat) returns (ok: bool, dst: string)
    ensures ok == (size == 0 || |text| < size) && dst == Copied(text, size)
  {
    dst := "";
    for i := 0 to size
      invariant i <= |text| && dst == text[..i]
    {
      if i == |text| {
        return true, dst;
      }
      dst := dst + [text[i]];
    }
    if size == 0 {
      return true, dst;
    }
    return false, dst[..size - 1];
  }

  /** Print an address into a buffer of `size` characters. */
  method Ntop6(a: seq<Byte>, size: nat) returns (ok: bool, dst: string, ghost best: Run)
    requires |a| == 16
    ensures IsBest(WordsOf(a), best)
    ensures (best.base == -1 || (0 <= best.base && 2 <= best.len && best.base + best.len <= 8))
    ensures ok == (size == 0 || |Text(WordsOf(a), best)| < size) && dst == Copied(Text(WordsOf(a), best), size)
  {
    var ws := WordsOf(a);
    var run := FindRun(ws);
    best := run;
    var text := Format(ws, run);
    ok, dst := Strscpy(text, size);
  }

  // ----- parsing -----

  /** The value of a hexadecimal digit, lower or upper case. */
  function HexValue(c: char): (r: Option<nat>)
    ensures r.Some? ==> r.value < 16
  {
    if '0' <= c <= '9' then Some(c as int - '0' as int)
    else if 'a' <= c <= 'f' then Some(c as int - 'a' as int + 10)
    else if 'A' <= c <= 'F' then Some(c as int - 'A' as int + 10)
    else None
  }

  /** Words read, how many of them before a "::", and the digits and value of the word being read. */
  datatype State = State(out: seq<Hextet>, colon: Option<nat>, seen: nat, val: nat)

  const Begin := State([], None, 0, 0)

  function ZeroWords(n: nat): (r: seq<Hextet>)
    ensures |r| == n && forall i :: 0 <= i < n ==> r[i] == 0
  {
    seq(n, _ => 0)
  }

  /** Add the word being read, if any, and fill up with zeros at the "::". */
  function Finish(p: State): (r: Option<seq<Hextet>>) {
    if p.seen > 0 && |p.out| >= 8 then None
    else
      var out := if p.seen > 0 then p.out + [p.val % 0x1_0000] else p.out;
      if p.colon.Some? && p.colon.value <= |out| < 8 then
        Some(out[..p.colon.value] + ZeroWords(8 - |out|) + out[p.colon.value..])
      else if p.colon.None? && |out| == 8 then Some(out)
      else None
  }

  function Parse(text: string, token: string, p: State): (r: Option<seq<Hextet>>)
    decreases |text|
  {
    if text == [] then Finish(p)
    else
      var c, rest, d := text[0], text[1..], HexValue(text[0]);
      if d.Some? then
        if p.seen + 1 > 4 then None else Parse(rest, token, p.(seen := p.seen + 1, val := 16 * p.val + d.value))
      else if c == ':' then
        if p.seen == 0 then
          if p.colon.Some? then None else Parse(rest, rest, p.(colon := Some(|p.out|)))
        else if rest == [] || |p.out| >= 8 then None
        else Parse(rest, rest, State(p.out + [p.val % 0x1_0000], p.colon, 0, 0))
      else if c == '.' && |p.out| <= 6 then
        var a := Inet4.Parse(token, Inet4.State([], 0, false));
        if a.Some? && |a.value| == 4 then Finish(State(p.out + WordsOf(a.value), p.colon, 0, p.val)) else None
      else None
  }

  /** A leading colon must be one of two. */
  function Parse6(src: string): (r: Option<seq<Hextet>>) {
    if src != [] && src[0] == ':' then
      if |src| < 2 || src[1] != ':' then None else Parse(src[1..], src[1..], Begin)
    else Parse(src, src, Begin)
  }

  /** Accepts exactly the texts of the grammar, and yields the address they denote. */
  method Pton6(src: string) returns (r: Option<seq<Byte>>)
    ensures r.Some? ==> |r.value| == 16 && Denotes(src, WordsOf(r.value))
    ensures r.None? ==> forall ws: seq<Hextet> :: !Denotes(src, ws)
  {
    var words := Scan6(src);
    AcceptedTexts(src);
    hide Denotes;
    if words.None? {
      return None;
    }
    WordsOfBytes(words.value);
    return Some(BytesOf(words.value));
  }

  method Scan6(src: string) returns (r: Option<seq<Hextet>>)
    ensures r == Parse6(src)
  {
    var text := src;
    if text != [] && text[0] == ':' {
      if |text| < 2 || text[1] != ':' {
        return None;
      }
      text := text[1..];
    }
    var token, p := text, Begin;
    while text != []
      invariant Parse6(src) == Parse(text, token, p)
      decreases |text|
    {
      var c, rest, d := text[0], text[1..], HexValue(text[0]);
      if d.Some? {
        p := p.(val := 16 * p.val + d.value);
        p := p.(seen := p.seen + 1);
        if p.seen > 4 {
          return None;
        }
      } else if c == ':' {
        token := rest;
        if p.seen == 0 {
          if p.colon.Some? {
            return None;
          }
          p := p.(colon := Some(|p.out|));
        } else {
          if rest == [] || |p.out| >= 8 {
            return None;
          }
          p := State(p.out + [p.val % 0x1_0000], p.colon, 0, 0);
        }
      } else {
        if c == '.' && |p.out| <= 6 {
          var a := Inet4.Pton4(token);
          if a.Some? {
            return Finish(State(p.out + WordsOf(a.value), p.colon, 0, p.val));
          }
        }
        return None;
      }
      text := rest;
    }
    return Finish(p);
  }

  // ----- the grammar -----

  /** One to four hexadecimal digits. */
  ghost predicate Group(g: string) {
    1 <= |g| <= 4 && AllHex(g)
  }

  predicate AllHex(g: string) {
    forall i :: 0 <= i < |g| ==> HexValue(g[i]).Some?
  }

  /** The number that hexadecimal digits stand for. */
  function ValueOf(g: string): (v: nat)
    requires AllHex(g)
  {
    if g == [] then 0 else 16 * ValueOf(g[..|g| - 1]) + HexValue(g[|g| - 1]).value
  }

  /** A group and a colon at `i`, for the first of some words. */
  ghost predicate GroupThen(text: string, i: int, ws: seq<Hextet>) {
    0 <= i < |text| && text[i] == ':' && Group(text[..i]) && ws != [] && ws[0] == ValueOf(text[..i])
  }

  /** Groups separated by colons. */
  ghost predicate Groups(text: string, ws: seq<Hextet>)
    decreases |text|
  {
    || (Group(text) && ws == [ValueOf(text)])
    || exists i :: GroupThen(text, i, ws) && Groups(text[i + 1..], ws[1..])
  }

  /** Groups separated by colons, the last of which may be a dotted address that stands for two words. */
  ghost predicate Side(text: string, ws: seq<Hextet>)
    decreases |text|
  {
    || (Group(text) && ws == [ValueOf(text)])
    || (exists a: seq<Byte> :: |a| == 4 && text == Inet4.Dotted(a) && ws == WordsOf(a))
    || exists i :: GroupThen(text, i, ws) && Side(text[i + 1..], ws[1..])
  }

  /** A side of a "::" may be missing. */
  ghost predicate Left(text: string, ws: seq<Hextet>) {
    (text == "" && ws == []) || Groups(text, ws)
  }

  ghost predicate Right(text: string, ws: seq<Hextet>) {
    (text == "" && ws == []) || Side(text, ws)
  }

  /** A "::" at `i` stands for the zeros that make up eight words. */
  ghost predicate Elided(src: string, i: int, a: seq<Hextet>, b: seq<Hextet>) {
    0 <= i && i + 2 <= |src| && src[i..i + 2] == "::" && Left(src[..i], a) && Right(src[i + 2..], b) && |a| + |b| < 8
  }

  /** The texts of an address: eight words, or fewer around one "::". */
  ghost predicate Denotes(src: string, ws: seq<Hextet>) {
    || (|ws| == 8 && Side(src, ws))
    || exists i, a, b :: Elided(src, i, a, b) && ws == a + ZeroWords(8 - |a| - |b|) + b
  }

  /** How many hexadecimal digits a text starts with. */
  function Lead(text: string): (n: nat)
    ensures n <= |text| && AllHex(text[..n]) && (n < |text| ==> HexValue(text[n]).None?)
  {
    if text == [] || HexValue(text[0]).None? then 0
    else
      var n := 1 + Lead(text[1..]);
      assert forall i :: 0 < i < n ==> text[i] == text[1..][i - 1];
      n
  }

  /** A run of digits with something else behind it is all of the leading digits. */
  lemma LeadIs(text: string, i: nat)
    requires i <= |text| && AllHex(text[..i]) && (i < |text| ==> HexValue(text[i]).None?)
    ensures Lead(text) == i
  {
    var n := Lead(text);
    assert forall k :: 0 <= k < i ==> text[..i][k] == text[k];
    assert forall k :: 0 <= k < n ==> text[..n][k] == text[k];
  }

  lemma {:induction false} GroupValue(g: string)
    requires AllHex(g) && |g| <= 4
    ensures ValueOf(g) < Power16(|g|)
  {
    if g != [] {
      GroupValue(g[..|g| - 1]);
    }
  }

  function Power16(n: nat): nat {
    if n == 0 then 1 else if n == 1 then 16 else if n == 2 then 256 else if n == 3 then 4096 else 65536
  }

  /** Digits of a group are read into the open word. */
  lemma {:induction false} GroupReads(text: string, n: nat, token: string, out: seq<Hextet>, colon: Option<nat>)
    requires n <= 4 && n <= |text| && AllHex(text[..n])
    ensures Parse(text, token, State(out, colon, 0, 0)) ==
      Parse(text[n..], token, State(out, colon, n, ValueOf(text[..n])))
  {
    hide HexValue, Finish, Inet4.Parse;
    if n == 0 {
      assert text[0..] == text && text[..0] == [];
    } else {
      var m := n - 1;
      assert text[..m] == text[..n][..m] && text[..n][m] == text[m];
      GroupReads(text, m, token, out, colon);
      assert text[m..][0] == text[m] && text[m..][1..] == text[n..];
    }
  }

  lemma {:induction false} TooManyDigits(text: string, token: string, out: seq<Hextet>, colon: Option<nat>)
    requires Lead(text) > 4
    ensures Parse(text, token, State(out, colon, 0, 0)).None?
  {
    hide HexValue, Finish, Inet4.Parse;
    var n := Lead(text);
    assert text[..4] == text[..n][..4] && text[..n][4] == text[4];
    GroupReads(text, 4, token, out, colon);
    assert text[4..][0] == text[4];
  }

  /** What is done with the text from the beginning of a group or of a dotted address. */
  function Token(text: string, out: seq<Hextet>, colon: Option<nat>): (r: Option<seq<Hextet>>) {
    var n := Lead(text);
    var v := ValueOf(text[..n]) % 0x1_0000;
    if n > 4 then None
    else if n == |text| then Finish(State(out, colon, n, v))
    else if text[n] == ':' then
      var rest := text[n + 1..];
      if n == 0 then if colon.Some? then None else Parse(rest, rest, State(out, Some(|out|), 0, 0))
      else if rest == [] || |out| >= 8 then None else Parse(rest, rest, State(out + [v], colon, 0, 0))
    else if text[n] == '.' && |out| <= 6 then
      var a := Inet4.Parse(text, Inet4.State([], 0, false));
      if a.Some? && |a.value| == 4 then Finish(State(out + WordsOf(a.value), colon, 0, v)) else None
    else None
  }

  lemma TokenReads(text: string, out: seq<Hextet>, colon: Option<nat>)
    ensures Parse(text, text, State(out, colon, 0, 0)) == Token(text, out, colon)
  {
    var n := Lead(text);
    if n > 4 {
      TooManyDigits(text, text, out, colon);
    } else {
      GroupReads(text, n, text, out, colon);
      GroupValue(text[..n]);
      hide HexValue, Inet4.Parse;
      if n < |text| {
        assert text[n..][0] == text[n] && text[n..][1..] == text[n + 1..];
      }
    }
  }

  /** Zeros at place `k` make up eight words. */
  function Filled(k: nat, out: seq<Hextet>): (r: Option<seq<Hextet>>)
    requires k <= |out|
  {
    if |out| < 8 then Some(out[..k] + ZeroWords(8 - |out|) + out[k..]) else None
  }

  function Closed(colon: Option<nat>, out: seq<Hextet>): (r: Option<seq<Hextet>>)
    requires colon.Some? ==> colon.value <= |out|
  {
    if colon.Some? then Filled(colon.value, out) else if |out| == 8 then Some(out) else None
  }

  /** The three forms of a side, as the leading digits tell them apart. */
  ghost predicate SideAt(text: string, ws: seq<Hextet>) {
    var n := Lead(text);
    && n <= 4
    && if n == |text| then n > 0 && ws == [ValueOf(text)]
       else if text[n] == ':' then n > 0 && ws != [] && ws[0] == ValueOf(text[..n]) && Side(text[n + 1..], ws[1..])
       else text[n] == '.' && exists a: seq<Byte> :: |a| == 4 && text == Inet4.Dotted(a) && ws == WordsOf(a)
  }

  lemma DottedLead(a: seq<Byte>)
    requires |a| == 4
    ensures var n := Lead(Inet4.Dotted(a)); n <= 3 && n < |Inet4.Dotted(a)| && Inet4.Dotted(a)[n] == '.'
  {
    var text, first := Inet4.Dotted(a), Inet4.DecimalText(a[0]);
    DecimalIsHex(a[0]);
    hide HexValue, Inet4.DecimalText;
    assert text[..|first|] == first && text[|first|] == '.';
    DotIsNoDigit();
    LeadIs(text, |first|);
  }

  lemma DotIsNoDigit()
    ensures HexValue('.').None? && HexValue(':').None?
  {
  }

  lemma DecimalIsHex(n: Byte)
    ensures |Inet4.DecimalText(n)| <= 3 && AllHex(Inet4.DecimalText(n))
  {
    forall d: nat | d < 10 ensures HexValue(Inet4.Digits[d]).Some? {
      DigitReads(d);
    }
  }

  lemma GroupIsLead(text: string, i: int, ws: seq<Hextet>)
    requires GroupThen(text, i, ws)
    ensures i == Lead(text) && 1 <= i <= 4
  {
    hide HexValue, ValueOf, Lead;
    DotIsNoDigit();
    LeadIs(text, i);
  }

  lemma LeadIsGroup(text: string, ws: seq<Hextet>)
    requires var n := Lead(text); 1 <= n <= 4 && n < |text| && text[n] == ':' && ws != [] && ws[0] == ValueOf(text[..n])
    ensures GroupThen(text, Lead(text), ws)
  {
    hide HexValue, ValueOf, Lead;
  }

  lemma WholeGroup(text: string)
    ensures Group(text) <==> 1 <= Lead(text) == |text| <= 4
  {
    hide HexValue, Lead;
    assert text[..|text|] == text;
    if Group(text) {
      LeadIs(text, |text|);
    }
  }

  /** The three forms of a side are told apart by what follows the leading digits. */
  lemma SideForms(text: string, ws: seq<Hextet>)
    ensures Side(text, ws) <==> SideAt(text, ws)
  {
    hide HexValue, ValueOf, Lead, Inet4.Dotted, WordsOf, GroupThen, Group;
    var n := Lead(text);
    WholeGroup(text);
    if n == |text| {
      assert text[..n] == text;
    }
    forall a: seq<Byte> | |a| == 4 && text == Inet4.Dotted(a) ensures n <= 3 && n < |text| && text[n] == '.' {
      DottedLead(a);
    }
    forall i | GroupThen(text, i, ws)
      ensures i == n && 1 <= n <= 4 && n < |text| && text[n] == ':' && ws != [] && ws[0] == ValueOf(text[..n])
    {
      GroupIsLead(text, i, ws);
      GroupMeans(text, i, ws);
    }
    if 1 <= n <= 4 && n < |text| && text[n] == ':' && ws != [] && ws[0] == ValueOf(text[..n]) {
      LeadIsGroup(text, ws);
    }
  }

  lemma GroupMeans(text: string, i: int, ws: seq<Hextet>)
    requires GroupThen(text, i, ws)
    ensures 0 <= i < |text| && text[i] == ':' && AllHex(text[..i]) && ws != [] && ws[0] == ValueOf(text[..i])
  {
  }

  lemma SideNotEmpty(text: string, ws: seq<Hextet>)
    requires Side(text, ws)
    ensures text != [] && text[0] != ':' && ws != []
  {
    SideForms(text, ws);
    hide Side;
    DotIsNoDigit();
  }

  /** A side is read as its words, which go after those already there. */
  lemma {:induction false} SideAccepted(text: string, out: seq<Hextet>, colon: Option<nat>, ws: seq<Hextet>)
    requires Side(text, ws) && (colon.Some? ==> colon.value <= |out|) && Closed(colon, out + ws).Some?
    ensures Parse(text, text, State(out, colon, 0, 0)) == Closed(colon, out + ws)
    decreases |text|
  {
    SideForms(text, ws);
    hide Side, Parse, HexValue, Lead, ValueOf, Inet4.Parse, Inet4.Dotted, WordsOf;
    TokenReads(text, out, colon);
    var n := Lead(text);
    GroupValue(text[..n]);
    if n == |text| {
      assert text[..n] == text;
    } else if text[n] == ':' {
      SideNotEmpty(text[n + 1..], ws[1..]);
      assert out + [ws[0]] + ws[1..] == out + ws;
      SideAccepted(text[n + 1..], out + [ws[0]], colon, ws[1..]);
    } else {
      Inet4.AcceptedTexts(text);
    }
  }

  /** Without the first colon of a "::" in front, what is read is a side that fits. */
  lemma {:induction false} SideParsed(text: string, out: seq<Hextet>, colon: Option<nat>) returns (ws: seq<Hextet>)
    requires colon.Some? && colon.value <= |out| && Parse(text, text, State(out, colon, 0, 0)).Some?
    ensures Right(text, ws) && Parse(text, text, State(out, colon, 0, 0)) == Closed(colon, out + ws)
    decreases |text|
  {
    hide Side, Parse, HexValue, Lead, ValueOf, Inet4.Parse, Inet4.Dotted, WordsOf;
    TokenReads(text, out, colon);
    var n := Lead(text);
    GroupValue(text[..n]);
    if n == |text| {
      assert text[..n] == text;
      ws := if n == 0 then [] else [ValueOf(text)];
      assert out + [] == out;
    } else if text[n] == ':' {
      var v := ValueOf(text[..n]);
      var more := SideParsed(text[n + 1..], out + [v], colon);
      ws := [v] + more;
      assert out + [v] + more == out + ws && ws[1..] == more;
    } else {
      Inet4.AcceptedTexts(text);
      ws := WordsOf(Inet4.Parse(text, Inet4.State([], 0, false)).value);
    }
    SideForms(text, ws);
  }

  /** Groups up to the second colon of a "::", and what follows it. */
  ghost predicate Split(text: string, a: seq<Hextet>, b: seq<Hextet>)
    decreases |text|
  {
    || (text != [] && text[0] == ':' && a == [] && Right(text[1..], b))
    || (exists i :: GroupThen(text, i, a) && Split(text[i + 1..], a[1..], b))
  }

  lemma SplitForms(text: string, a: seq<Hextet>, b: seq<Hextet>)
    ensures var n := Lead(text);
      Split(text, a, b) <==>
        && n < |text| && text[n] == ':' && n <= 4
        && if n == 0 then a == [] && Right(text[1..], b)
          else a != [] && a[0] == ValueOf(text[..n]) && Split(text[n + 1..], a[1..], b)
  {
    hide HexValue, ValueOf, Lead, Right, GroupThen;
    var n := Lead(text);
    if text != [] && text[0] == ':' {
      DotIsNoDigit();
      assert AllHex(text[..0]);
      LeadIs(text, 0);
    }
    forall i | GroupThen(text, i, a)
      ensures i == n && 1 <= n <= 4 && n < |text| && text[n] == ':' && a != [] && a[0] == ValueOf(text[..n])
    {
      GroupIsLead(text, i, a);
      GroupMeans(text, i, a);
    }
    if 1 <= n <= 4 && n < |text| && text[n] == ':' && a != [] && a[0] == ValueOf(text[..n]) {
      LeadIsGroup(text, a);
    }
  }

  lemma {:induction false} SplitAccepted(text: string, out: seq<Hextet>, a: seq<Hextet>, b: seq<Hextet>)
    requires Split(text, a, b) && |out| + |a| + |b| < 8
    ensures Parse(text, text, State(out, None, 0, 0)) == Some(out + a + ZeroWords(8 - |out| - |a| - |b|) + b)
    decreases |text|
  {
    SplitForms(text, a, b);
    hide Side, Split, Parse, HexValue, Lead, ValueOf, Inet4.Parse, Inet4.Dotted, WordsOf;
    TokenReads(text, out, None);
    var n := Lead(text);
    GroupValue(text[..n]);
    if n == 0 {
      RightAccepted(text[1..], out, b);
      assert out + a == out;
    } else {
      SplitNotEmpty(text[n + 1..], a[1..], b);
      SplitAccepted(text[n + 1..], out + [a[0]], a[1..], b);
      assert out + [a[0]] + a[1..] == out + a;
    }
  }

  lemma SplitNotEmpty(text: string, a: seq<Hextet>, b: seq<Hextet>)
    requires Split(text, a, b)
    ensures text != []
  {
  }

  lemma RightAccepted(text: string, out: seq<Hextet>, b: seq<Hextet>)
    requires Right(text, b) && |out| + |b| < 8
    ensures Parse(text, text, State(out, Some(|out|), 0, 0)) == Some(out + ZeroWords(8 - |out| - |b|) + b)
  {
    hide Side;
    var all := out + b;
    assert all[..|out|] == out && all[|out|..] == b;
    if text == "" {
      if Side(text, b) {
        SideNotEmpty(text, b);
      }
      assert all == out;
      assert Finish(State(out, Some(|out|), 0, 0)) == Some(out[..|out|] + ZeroWords(8 - |out|) + out[|out|..]);
    } else {
      hide Parse;
      SideAccepted(text, out, Some(|out|), b);
    }
  }

  /** What is read without a "::" so far: a side that makes up eight words, or groups and one "::". */
  lemma {:induction false} TextParsed(text: string, out: seq<Hextet>) returns (a: seq<Hextet>, b: Option<seq<Hextet>>)
    requires text != [] && Parse(text, text, State(out, None, 0, 0)).Some?
    ensures b.None? ==> Side(text, a) && Parse(text, text, State(out, None, 0, 0)) == Some(out + a) && |out + a| == 8
    ensures b.Some? ==>
      Split(text, a, b.value) && |out| + |a| + |b.value| < 8 && Parse(text, text, State(out, None, 0, 0)).Some?
    ensures b.Some? ==>
      Parse(text, text, State(out, None, 0, 0)) == Some(out + a + ZeroWords(8 - |out| - |a| - |b.value|) + b.value)
    decreases |text|
  {
    hide Side, Split, Parse, HexValue, Lead, ValueOf, Inet4.Parse, Inet4.Dotted, WordsOf;
    TokenReads(text, out, None);
    var n := Lead(text);
    GroupValue(text[..n]);
    if n == |text| {
      assert text[..n] == text;
      a, b := [ValueOf(text)], None;
      SideForms(text, a);
    } else if text[n] == ':' && n == 0 {
      var right := SideParsed(text[1..], out, Some(|out|));
      a, b := [], Some(right);
      assert (out + right)[..|out|] == out && (out + right)[|out|..] == right && out + a == out;
      SplitForms(text, a, right);
    } else if text[n] == ':' {
      var v := ValueOf(text[..n]);
      var a', b' := TextParsed(text[n + 1..], out + [v]);
      a, b := [v] + a', b';
      assert a[1..] == a' && out + [v] + a' == out + a;
      if b.None? {
        SideForms(text, a);
      } else {
        SplitForms(text, a, b.value);
      }
    } else {
      Inet4.AcceptedTexts(text);
      a, b := WordsOf(Inet4.Parse(text, Inet4.State([], 0, false)).value), None;
      SideForms(text, a);
    }
  }

  lemma GroupsNotEmpty(text: string, a: seq<Hextet>)
    requires Groups(text, a)
    ensures text != [] && a != [] && text[0] != ':'
  {
    DotIsNoDigit();
    if !Group(text) {
      var i :| GroupThen(text, i, a) && Groups(text[i + 1..], a[1..]);
      assert text[..i][0] == text[0];
    }
  }

  lemma GroupsMore(text: string, i: int, a: seq<Hextet>)
    requires GroupThen(text, i, a) && Groups(text[i + 1..], a[1..])
    ensures Groups(text, a)
  {
  }

  lemma GroupsFirst(text: string, a: seq<Hextet>) returns (i: int)
    requires Groups(text, a)
    ensures 0 < i <= |text| && Group(text[..i]) && a != [] && a[0] == ValueOf(text[..i])
    ensures i == |text| ==> a == [ValueOf(text)]
    ensures i < |text| ==> text[i] == ':' && Groups(text[i + 1..], a[1..])
  {
    if Group(text) && a == [ValueOf(text)] {
      i := |text|;
      assert text[..i] == text;
    } else {
      i :| GroupThen(text, i, a) && Groups(text[i + 1..], a[1..]);
    }
  }

  lemma SplitMore(text: string, i: int, a: seq<Hextet>, b: seq<Hextet>)
    requires GroupThen(text, i, a) && Split(text[i + 1..], a[1..], b)
    ensures Split(text, a, b)
  {
  }

  lemma GroupsOne(text: string, a: seq<Hextet>)
    requires Group(text) && a == [ValueOf(text)]
    ensures Groups(text, a)
  {
  }

  /** Splitting a text with something in front of its "::". */
  lemma {:induction false} SplitText(text: string, i: int, a: seq<Hextet>, b: seq<Hextet>)
    requires 0 <= i && i + 2 <= |text| && text[i..i + 2] == "::" && Groups(text[..i], a) && Right(text[i + 2..], b)
    ensures Split(text, a, b)
    decreases |text|
  {
    hide HexValue, ValueOf, Right, Groups, Split, Group;
    assert text[i..i + 2][0] == text[i] && text[i..i + 2][1] == text[i + 1];
    var left := text[..i];
    var j := GroupsFirst(left, a);
    var rest := text[j + 1..];
    assert left[..j] == text[..j];
    if j == i {
      assert rest[0] == text[i + 1] && rest[1..] == text[i + 2..];
      EmptySplit(rest, b);
      assert a[1..] == [];
    } else {
      Shifted(text, i, j);
      SplitText(rest, i - j - 1, a[1..], b);
      assert left[j] == text[j];
    }
    SplitMore(text, j, a, b);
  }

  lemma Shifted(text: string, i: int, j: int)
    requires 0 <= j < i && i + 2 <= |text|
    ensures var rest := text[j + 1..];
      && text[..i][j + 1..] == rest[..i - j - 1] && rest[i - j - 1..i - j + 1] == text[i..i + 2]
      && rest[i - j + 1..] == text[i + 2..]
  {
  }

  lemma {:induction false} SplitPlace(text: string, a: seq<Hextet>, b: seq<Hextet>) returns (i: int)
    requires Split(text, a, b) && a != []
    ensures 0 <= i && i + 2 <= |text| && text[i..i + 2] == "::" && Groups(text[..i], a) && Right(text[i + 2..], b)
    decreases |text|
  {
    SplitForms(text, a, b);
    hide HexValue, ValueOf, Right, Groups, Split;
    var n := Lead(text);
    var rest := text[n + 1..];
    if |a| == 1 {
      SplitForms(rest, a[1..], b);
      hide Lead;
      i := n;
      assert rest[0] == text[n + 1] && rest[1..] == text[i + 2..];
      assert text[i..i + 2] == "::";
      GroupsOne(text[..i], a);
    } else {
      hide Lead;
      var j := SplitPlace(rest, a[1..], b);
      i := n + 1 + j;
      var left := text[..i];
      assert left[..n] == text[..n] && left[n + 1..] == rest[..j] && left[n] == ':';
      assert text[i..i + 2] == rest[j..j + 2] && text[i + 2..] == rest[j + 2..];
      GroupsMore(left, n, a);
    }
  }

  lemma DenotedIsRead(src: string, ws: seq<Hextet>)
    requires Denotes(src, ws)
    ensures Parse6(src) == Some(ws)
  {
    hide Side, Groups, Right, Parse, Split;
    if |ws| == 8 && Side(src, ws) {
      SideNotEmpty(src, ws);
      SideAccepted(src, [], None, ws);
      assert [] + ws == ws;
    } else {
      var i, a, b :| Elided(src, i, a, b) && ws == a + ZeroWords(8 - |a| - |b|) + b;
      assert src[i..i + 2][0] == ':' && src[i..i + 2][1] == ':';
      assert [] + a == a;
      if a == [] {
        EmptyLeft(src[..i], a);
        assert src[1..][1..] == src[i + 2..];
        EmptySplit(src[1..], b);
        SplitAccepted(src[1..], [], a, b);
      } else {
        GroupsNotEmpty(src[..i], a);
        assert src[..i][0] == src[0];
        SplitText(src, i, a, b);
        SplitAccepted(src, [], a, b);
      }
    }
  }

  lemma EmptyLeft(text: string, a: seq<Hextet>)
    requires Left(text, a) && a == []
    ensures text == []
  {
    if Groups(text, a) {
      GroupsNotEmpty(text, a);
    }
  }

  lemma EmptySplit(text: string, b: seq<Hextet>)
    requires text != [] && text[0] == ':' && Right(text[1..], b)
    ensures Split(text, [], b)
  {
  }

  /** A leading "::" loses its first colon; anything else is read from its beginning. */
  lemma Stripped(src: string) returns (text: string)
    requires Parse6(src).Some?
    ensures Parse(text, text, Begin) == Parse6(src) && text != []
    ensures text == if src[0] == ':' then src[1..] else src
    ensures text[0] == ':' <==> src[0] == ':'
    ensures text[0] == ':' ==> |src| >= 2 && src[1] == ':'
  {
    assert Finish(Begin).None?;
    text := if src != [] && src[0] == ':' then src[1..] else src;
    hide Parse;
  }

  lemma ReadIsDenoted(src: string)
    requires Parse6(src).Some?
    ensures Denotes(src, Parse6(src).value)
  {
    hide Side, Groups, Parse, Parse6, Split, Right, Left, Denotes, HexValue;
    var text := Stripped(src);
    var a, b := TextParsed(text, []);
    assert [] + a == a;
    if b.None? {
      SideNotEmpty(text, a);
      assert |a| == 8 && text == src;
      WholeDenotes(src, a);
    } else if a == [] {
      SplitAtFront(text, b.value);
      assert src[2..] == text[1..];
      NoLeft(src[..0], a);
      ElidedDenotes(src, 0, a, b.value);
    } else {
      SplitStart(text, a, b.value);
      var i := SplitPlace(text, a, b.value);
      SomeLeft(src[..i], a);
      ElidedDenotes(src, i, a, b.value);
    }
  }

  lemma NoLeft(text: string, a: seq<Hextet>)
    requires text == [] && a == []
    ensures Left(text, a)
  {
  }

  lemma SomeLeft(text: string, a: seq<Hextet>)
    requires Groups(text, a)
    ensures Left(text, a)
  {
    hide Groups;
  }

  lemma WholeDenotes(src: string, ws: seq<Hextet>)
    requires Side(src, ws) && |ws| == 8
    ensures Denotes(src, ws)
  {
    hide Side;
  }

  lemma ElidedDenotes(src: string, i: int, a: seq<Hextet>, b: seq<Hextet>)
    requires 0 <= i && i + 2 <= |src| && src[i] == ':' && src[i + 1] == ':' && Left(src[..i], a)
    requires Right(src[i + 2..], b) && |a| + |b| < 8
    ensures Denotes(src, a + ZeroWords(8 - |a| - |b|) + b)
  {
    hide Left, Right;
    assert src[i..i + 2] == "::";
    assert Elided(src, i, a, b);
  }

  lemma SplitAtFront(text: string, b: seq<Hextet>)
    requires Split(text, [], b)
    ensures text != [] && text[0] == ':' && Right(text[1..], b)
  {
  }

  lemma DenotedLength(src: string, ws: seq<Hextet>)
    requires Denotes(src, ws)
    ensures |ws| == 8
  {
    hide Side, Groups, Left, Right;
    if !(|ws| == 8 && Side(src, ws)) {
      var i, a, b :| Elided(src, i, a, b) && ws == a + ZeroWords(8 - |a| - |b|) + b;
    }
  }

  lemma SplitStart(text: string, a: seq<Hextet>, b: seq<Hextet>)
    requires Split(text, a, b) && a != []
    ensures text != [] && text[0] != ':'
  {
    SplitForms(text, a, b);
    hide Split;
    DotIsNoDigit();
  }

  /** A text is read as an address exactly if the grammar says that it denotes it. */
  lemma AcceptedTexts(src: string)
    ensures forall ws :: Parse6(src) == Some(ws) <==> Denotes(src, ws)
    ensures Parse6(src).Some? ==> |Parse6(src).value| == 8
  {
    hide Denotes, Parse6;
    if Parse6(src).Some? {
      ReadIsDenoted(src);
      DenotedLength(src, Parse6(src).value);
    }
    forall ws ensures Parse6(src) == Some(ws) <==> Denotes(src, ws) {
      if Denotes(src, ws) {
        DenotedIsRead(src, ws);
      }
    }
  }

  // ----- reading back what was printed -----

  lemma DigitReads(d: nat)
    requires d < 16
    ensures HexValue(Inet4.Digits[d]) == Some(d) && Inet4.Digits[d] != ':'
  {
    assert Inet4.Digits == ['0', '1', '2', '3', '4', '5', '6', '7', '8', '9', 'a', 'b', 'c', 'd', 'e', 'f'];
  }

  lemma OneDigit(d: nat, rest: string, token: string, p: State)
    requires d < 16 && p.seen < 4
    ensures Parse([Inet4.Digits[d]] + rest, token, p) ==
      Parse(rest, token, p.(seen := p.seen + 1, val := 16 * p.val + d))
  {
    DigitReads(d);
    hide HexValue, Finish;
    var c := Inet4.Digits[d];
    assert ([c] + rest)[0] == c && ([c] + rest)[1..] == rest;
  }

  lemma TwoDigits(a: nat, b: nat, rest: string, token: string, p: State)
    requires a < 16 && b < 16 && p.seen < 3
    ensures Parse([Inet4.Digits[a], Inet4.Digits[b]] + rest, token, p)
         == Parse(rest, token, p.(seen := p.seen + 2, val := 256 * p.val + 16 * a + b))
  {
    hide Parse;
    assert [Inet4.Digits[a], Inet4.Digits[b]] + rest == [Inet4.Digits[a]] + ([Inet4.Digits[b]] + rest);
    OneDigit(a, [Inet4.Digits[b]] + rest, token, p);
    OneDigit(b, rest, token, p.(seen := p.seen + 1, val := 16 * p.val + a));
  }

  lemma ThreeDigits(a: nat, b: nat, c: nat, rest: string, token: string, p: State)
    requires a < 16 && b < 16 && c < 16 && p.seen == 0 && p.val == 0
    ensures Parse([Inet4.Digits[a], Inet4.Digits[b], Inet4.Digits[c]] + rest, token, p)
         == Parse(rest, token, p.(seen := 3, val := 256 * a + 16 * b + c))
  {
    hide Parse;
    assert [Inet4.Digits[a], Inet4.Digits[b], Inet4.Digits[c]] + rest ==
      [Inet4.Digits[a]] + ([Inet4.Digits[b], Inet4.Digits[c]] + rest);
    OneDigit(a, [Inet4.Digits[b], Inet4.Digits[c]] + rest, token, p);
    TwoDigits(b, c, rest, token, p.(seen := 1, val := a));
  }

  lemma FourDigits(a: nat, b: nat, c: nat, d: nat, rest: string, token: string, p: State)
    requires a < 16 && b < 16 && c < 16 && d < 16 && p.seen == 0 && p.val == 0
    ensures Parse([Inet4.Digits[a], Inet4.Digits[b], Inet4.Digits[c], Inet4.Digits[d]] + rest, token, p)
         == Parse(rest, token, p.(seen := 4, val := 4096 * a + 256 * b + 16 * c + d))
  {
    hide Parse;
    var more := [Inet4.Digits[c], Inet4.Digits[d]] + rest;
    assert [Inet4.Digits[a], Inet4.Digits[b], Inet4.Digits[c], Inet4.Digits[d]] + rest ==
      [Inet4.Digits[a], Inet4.Digits[b]] + more;
    TwoDigits(a, b, more, token, p);
    TwoDigits(c, d, rest, token, p.(seen := 2, val := 16 * a + b));
  }

  lemma LongHexReads(w: Hextet, rest: string, token: string, p: State)
    requires p.seen == 0 && p.val == 0 && w >= 0x1000
    ensures Parse(Hex(w) + rest, token, p) == Parse(rest, token, p.(seen := |Hex(w)|, val := w))
  {
    hide Parse;
    var a, b, c, d := w / 4096, w / 256 % 16, w / 16 % 16, w % 16;
    assert w == 4096 * a + 256 * b + 16 * c + d by {
      assert w / 256 == w / 16 / 16 && w / 4096 == w / 256 / 16;
    }
    FourDigits(a, b, c, d, rest, token, p);
  }

  lemma MiddleHexReads(w: Hextet, rest: string, token: string, p: State)
    requires p.seen == 0 && p.val == 0 && 0x100 <= w < 0x1000
    ensures Parse(Hex(w) + rest, token, p) == Parse(rest, token, p.(seen := |Hex(w)|, val := w))
  {
    hide Parse;
    var a, b, c := w / 256, w / 16 % 16, w % 16;
    assert w == 256 * a + 16 * b + c by {
      assert w / 256 == w / 16 / 16;
    }
    ThreeDigits(a, b, c, rest, token, p);
  }

  lemma ShortHexReads(w: Hextet, rest: string, token: string, p: State)
    requires p.seen == 0 && p.val == 0 && w < 0x100
    ensures Parse(Hex(w) + rest, token, p) == Parse(rest, token, p.(seen := |Hex(w)|, val := w))
  {
    hide Parse;
    if w < 0x10 {
      OneDigit(w, rest, token, p);
    } else {
      TwoDigits(w / 16, w % 16, rest, token, p);
    }
  }

  /** A printed word is read back as that word. */
  lemma HexReads(w: Hextet, rest: string, token: string, out: seq<Hextet>, colon: Option<nat>)
    ensures Parse(Hex(w) + rest, token, State(out, colon, 0, 0)) == Parse(rest, token, State(out, colon, |Hex(w)|, w))
  {
    hide Parse, Hex;
    var p := State(out, colon, 0, 0);
    if w < 0x100 {
      ShortHexReads(w, rest, token, p);
    } else if w < 0x1000 {
      MiddleHexReads(w, rest, token, p);
    } else {
      LongHexReads(w, rest, token, p);
    }
  }

  /** A colon after digits ends a word. */
  lemma ColonEndsWord(rest: string, token: string, out: seq<Hextet>, colon: Option<nat>, seen: nat, w: Hextet)
    requires rest != [] && |out| < 8 && seen > 0
    ensures Parse(":" + rest, token, State(out, colon, seen, w)) == Parse(rest, rest, State(out + [w], colon, 0, 0))
  {
    hide Finish;
    assert (":" + rest)[1..] == rest && (":" + rest)[0] == ':';
    assert HexValue(':').None?;
  }

  /** A colon after a colon marks the run that was left out. */
  lemma ColonMarksRun(rest: string, token: string, out: seq<Hextet>)
    ensures Parse(":" + rest, token, State(out, None, 0, 0)) == Parse(rest, rest, State(out, Some(|out|), 0, 0))
  {
    hide Finish;
    assert (":" + rest)[1..] == rest && (":" + rest)[0] == ':';
    assert HexValue(':').None?;
  }

  /** Words with colons between them are read one after the other; the last stays open. */
  lemma {:induction false} JoinReads(ws: seq<Hextet>, rest: string, token: string, out: seq<Hextet>, colon: Option<nat>)
    returns (token': string)
    requires |ws| >= 1 && |out| + |ws| <= 8
    ensures Parse(Join(ws) + rest, token, State(out, colon, 0, 0))
         == Parse(rest, token', State(out + ws[..|ws| - 1], colon, |Hex(ws[|ws| - 1])|, ws[|ws| - 1]))
    decreases |ws|
  {
    hide Parse, Hex;
    if |ws| == 1 {
      HexReads(ws[0], rest, token, out, colon);
      assert out + ws[..0] == out;
      token' := token;
    } else {
      var tail := Join(ws[1..]) + rest;
      assert Join(ws) + rest == Hex(ws[0]) + (":" + tail);
      JoinNotEmpty(ws[1..]);
      HexReads(ws[0], ":" + tail, token, out, colon);
      ColonEndsWord(tail, token, out, colon, |Hex(ws[0])|, ws[0]);
      token' := JoinReads(ws[1..], rest, tail, out + [ws[0]], colon);
      assert out + [ws[0]] + ws[1..][..|ws| - 2] == out + ws[..|ws| - 1];
    }
  }

  lemma JoinNotEmpty(ws: seq<Hextet>)
    requires ws != []
    ensures Join(ws) != [] && Join(ws)[0] != ':'
  {
    FirstDigit(ws[0]);
  }

  lemma FirstDigit(w: Hextet)
    ensures Hex(w)[0] != ':'
  {
    var d := if w < 0x10 then w else if w < 0x100 then w / 16 else if w < 0x1000 then w / 256 else w / 4096;
    DigitReads(d);
    assert Hex(w)[0] == Inet4.Digits[d];
  }

  /** The end of the text: the open word is added and the run filled in. */
  lemma EndFillsRun(token: string, a: seq<Hextet>, b: seq<Hextet>)
    requires |a| + |b| < 8
    ensures var p :=
        if b == [] then State(a, Some(|a|), 0, 0)
        else State(a + b[..|b| - 1], Some(|a|), |Hex(b[|b| - 1])|, b[|b| - 1]);
      Parse("", token, p) == Some(a + ZeroWords(8 - |a| - |b|) + b)
  {
    hide Hex;
    var out := a + b;
    assert out[..|a|] == a && out[|a|..] == b;
    if b == [] {
      assert out == a;
      assert Finish(State(a, Some(|a|), 0, 0)) == Some(out[..|a|] + ZeroWords(8 - |out|) + out[|a|..]);
    } else {
      var p := State(a + b[..|b| - 1], Some(|a|), |Hex(b[|b| - 1])|, b[|b| - 1]);
      assert p.out + [p.val % 0x1_0000] == out;
      assert Finish(p) == Some(out[..|a|] + ZeroWords(8 - |out|) + out[|a|..]);
    }
  }

  lemma DotReads(more: string, token: string, addr: seq<Byte>, out: seq<Hextet>, colon: Option<nat>, seen: nat, v: nat)
    requires |addr| == 4 && |out| <= 6 && Inet4.Parse(token, Inet4.State([], 0, false)) == Some(addr)
    ensures Parse("." + more, token, State(out, colon, seen, v)) == Finish(State(out + WordsOf(addr), colon, 0, v))
  {
    hide Finish, Inet4.Parse;
    assert ("." + more)[0] == '.';
    assert HexValue('.').None?;
  }

  /** A dotted address at the end is read as two words. */
  lemma DottedReads(addr: seq<Byte>, out: seq<Hextet>, colon: Option<nat>) returns (v: nat)
    requires |addr| == 4 && |out| <= 6
    ensures Parse(Inet4.Dotted(addr), Inet4.Dotted(addr), State(out, colon, 0, 0)) ==
      Finish(State(out + WordsOf(addr), colon, 0, v))
  {
    hide Parse, Finish, Inet4.DecimalText;
    var token := Inet4.Dotted(addr);
    Inet4.RoundTrip4(addr);
    var more := Inet4.DecimalText(addr[1]) + "." + Inet4.DecimalText(addr[2]) + "." + Inet4.DecimalText(addr[3]);
    assert token == Inet4.DecimalText(addr[0]) + ("." + more);
    v := DecimalAsHex(addr[0], "." + more, token, out, colon);
    DotReads(more, token, addr, out, colon, |Inet4.DecimalText(addr[0])|, v);
  }

  /** Decimal digits are read as hexadecimal ones until the dot shows what they are. */
  lemma DecimalAsHex(n: Byte, rest: string, token: string, out: seq<Hextet>, colon: Option<nat>) returns (v: nat)
    ensures Parse(Inet4.DecimalText(n) + rest, token, State(out, colon, 0, 0))
         == Parse(rest, token, State(out, colon, |Inet4.DecimalText(n)|, v))
  {
    hide Parse;
    var p := State(out, colon, 0, 0);
    if n < 10 {
      OneDigit(n, rest, token, p);
      v := n;
    } else if n < 100 {
      TwoDigits(n / 10, n % 10, rest, token, p);
      v := 16 * (n / 10) + n % 10;
    } else {
      var a, b, c := n / 100, n / 10 % 10, n % 10;
      assert Inet4.DecimalText(n) + rest == [Inet4.Digits[a]] + ([Inet4.Digits[b], Inet4.Digits[c]] + rest);
      OneDigit(a, [Inet4.Digits[b], Inet4.Digits[c]] + rest, token, p);
      TwoDigits(b, c, rest, token, State(out, colon, 1, a));
      v := 256 * a + 16 * b + c;
    }
  }

  /** Words around a run of zeros. */
  lemma AroundRun(ws: seq<Hextet>, best: Run)
    requires |ws| == 8 && Zero(ws, best.base, best.len)
    ensures ws == ws[..best.base] + ZeroWords(best.len) + ws[best.base + best.len..]
  {
  }

  /** What follows the "::" is read back, whether or not it ends in an IPv4 address. */
  lemma AfterRunReads(ws: seq<Hextet>, best: Run)
    requires |ws| == 8 && Zero(ws, best.base, best.len) && best.len >= 1
    ensures var rest := AfterRun(ws, best);
      Parse(rest, rest, State(ws[..best.base], Some(best.base), 0, 0)) == Some(ws)
  {
    hide Parse, Hex;
    var a, b, rest := ws[..best.base], ws[best.base + best.len..], AfterRun(ws, best);
    AroundRun(ws, best);
    if Embedded(ws, best) {
      EmbeddedReads(ws, best);
    } else if b == [] {
      EndFillsRun(rest, a, b);
    } else {
      assert rest == rest + "";
      var token := JoinReads(b, "", rest, a, Some(|a|));
      EndFillsRun(token, a, b);
    }
  }

  lemma EmbeddedReads(ws: seq<Hextet>, best: Run)
    requires |ws| == 8 && Zero(ws, best.base, best.len) && Embedded(ws, best)
    ensures var rest := AfterRun(ws, best); Parse(rest, rest, State([], Some(0), 0, 0)) == Some(ws)
    ensures ws[..best.base] == []
  {
    hide Parse, Hex, Finish, Inet4.Dotted;
    WordsOfBytes(ws[6..]);
    AroundRun(ws, best);
    assert ws[..best.base] == [] && [] + ZeroWords(best.len) == ZeroWords(best.len);
    if best.len == 6 {
      CompatibleReads(ws);
    } else {
      MappedReads(ws);
    }
  }

  /** "::" and a dotted address. */
  lemma CompatibleReads(ws: seq<Hextet>)
    requires |ws| == 8 && WordsOf(BytesOf(ws[6..])) == ws[6..] && ws == ZeroWords(6) + ws[6..]
    ensures var text := Inet4.Dotted(BytesOf(ws[6..])); Parse(text, text, State([], Some(0), 0, 0)) == Some(ws)
  {
    hide Parse, Finish, Inet4.Dotted, WordsOf, BytesOf;
    var last := ws[6..];
    var v := DottedReads(BytesOf(last), [], Some(0));
    assert [] + last == last && |last| == 2;
    FilledAtFront(last, v);
  }

  /** "::", a word and a dotted address. */
  lemma MappedReads(ws: seq<Hextet>)
    requires |ws| == 8 && WordsOf(BytesOf(ws[6..])) == ws[6..] && ws == ZeroWords(5) + ws[5..]
    ensures var text := Hex(ws[5]) + ":" + Inet4.Dotted(BytesOf(ws[6..]));
      Parse(text, text, State([], Some(0), 0, 0)) == Some(ws)
  {
    hide Parse, Hex, Finish, Inet4.Dotted, WordsOf, BytesOf;
    var last := ws[6..];
    DottedNotEmpty(BytesOf(last));
    WordThenRest(ws[5], Inet4.Dotted(BytesOf(last)));
    var v := DottedReads(BytesOf(last), [ws[5]], Some(0));
    MappedEnds(ws, v);
  }

  lemma WordThenRest(w: Hextet, rest: string)
    requires rest != []
    ensures var text := Hex(w) + ":" + rest;
      Parse(text, text, State([], Some(0), 0, 0)) == Parse(rest, rest, State([w], Some(0), 0, 0))
  {
    hide Parse, Hex;
    var text := Hex(w) + ":" + rest;
    assert text == Hex(w) + (":" + rest);
    HexReads(w, ":" + rest, text, [], Some(0));
    ColonEndsWord(rest, text, [], Some(0), |Hex(w)|, w);
    assert [] + [w] == [w];
  }

  lemma MappedEnds(ws: seq<Hextet>, v: nat)
    requires |ws| == 8 && ws == ZeroWords(5) + ws[5..]
    ensures Finish(State([ws[5]] + ws[6..], Some(0), 0, v)) == Some(ws)
  {
    assert [ws[5]] + ws[6..] == ws[5..] && |ws[5..]| == 3;
    FilledAtFront(ws[5..], v);
  }

  lemma DottedNotEmpty(a: seq<Byte>)
    requires |a| == 4
    ensures Inet4.Dotted(a) != []
  {
  }

  lemma FilledAtFront(b: seq<Hextet>, v: nat)
    requires |b| < 8
    ensures Finish(State(b, Some(0), 0, v)) == Some(ZeroWords(8 - |b|) + b)
  {
    assert b[..0] == [] && b[0..] == b;
    assert [] + ZeroWords(8 - |b|) + b == ZeroWords(8 - |b|) + b;
  }

  /** Every address is read back from its text, whichever run of zeros was left out. */
  lemma RoundTrip6(ws: seq<Hextet>, best: Run)
    requires |ws| == 8 && (best.base == -1 || (Zero(ws, best.base, best.len) && best.len >= 1))
    ensures Parse6(Text(ws, best)) == Some(ws)
  {
    hide Parse, Hex;
    if best.base == -1 {
      JoinNotEmpty(ws);
      var text := Join(ws);
      assert text == text + "";
      var token := JoinReads(ws, "", text, [], None);
      AllRead(token, ws);
    } else {
      var a, rest := ws[..best.base], AfterRun(ws, best);
      AfterRunReads(ws, best);
      if a == [] {
        assert Text(ws, best) == "::" + rest;
        assert ("::" + rest)[1..] == ":" + rest;
        ColonMarksRun(rest, ":" + rest, []);
      } else {
        JoinNotEmpty(a);
        assert Text(ws, best) == Join(a) + ("::" + rest);
        assert "::" + rest == ":" + (":" + rest);
        var token := JoinReads(a, ":" + (":" + rest), Text(ws, best), [], None);
        var last := a[|a| - 1];
        assert [] + a[..|a| - 1] == a[..|a| - 1] && a[..|a| - 1] + [last] == a;
        ColonEndsWord(":" + rest, token, a[..|a| - 1], None, |Hex(last)|, last);
        ColonMarksRun(rest, ":" + rest, a);
      }
    }
  }

  lemma AllRead(token: string, ws: seq<Hextet>)
    requires |ws| == 8
    ensures Parse("", token, State([] + ws[..7], None, |Hex(ws[7])|, ws[7])) == Some(ws)
  {
    hide Hex;
    assert [] + ws[..7] + [ws[7]] == ws;
  }

  lemma {:induction false} JoinLength(ws: seq<Hextet>)
    ensures |Join(ws)| <= if ws == [] then 0 else 5 * |ws| - 1
  {
    if |ws| > 1 {
      JoinLength(ws[1..]);
    }
  }

  /** The buffer of 46 characters is always long enough. */
  lemma TextFits(ws: seq<Hextet>, best: Run)
    requires |ws| == 8 && (best.base == -1 || (0 <= best.base && 2 <= best.len && best.base + best.len <= 8))
    ensures |Text(ws, best)| < 46
  {
    hide Hex, Join, Inet4.Dotted, BytesOf;
    if best.base == -1 {
      JoinLength(ws);
    } else {
      JoinLength(ws[..best.base]);
      JoinLength(ws[best.base + best.len..]);
      DottedLength(BytesOf(ws[6..]));
    }
  }

  lemma DottedLength(a: seq<Byte>)
    requires |a| == 4
    ensures |Inet4.Dotted(a)| <= 15
  {
  }

  /** Printing an address and parsing the text gives the address back. */
  method PrintAndParse(a: seq<Byte>) returns (r: Option<seq<Byte>>)
    requires |a| == 16
    ensures r == Some(a)
  {
    hide Text, Parse6;
    var ok, text, best := Ntop6(a, 46);
    TextFits(WordsOf(a), best);
    RoundTrip6(WordsOf(a), best);
    AcceptedTexts(text);
    hide Denotes;
    r := Pton6(text);
    BytesOfWords(a);
    if r.Some? {
      BytesOfWords(r.value);
    }
  }
}
