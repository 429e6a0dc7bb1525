/** IPv4 addresses as text, printed and parsed. */
module Inet4 {
  import opened Basics

  type Digit = d: int | 0 <= d < 16

  const Digits: string := "0123456789abcdef"

  /** The value of a decimal digit. */
  function Decimal(c: char): (r: Option<Digit>) {
    if '0' <= c <= '9' then Some(c as int - '0' as int) else None
  }

  function DecimalText(n: nat): (r: string)
    requires n < 256
  {
    if n < 10 then [Digits[n]]
    else if n < 100 then [Digits[n / 10], Digits[n % 10]]
    else [Digits[n / 100], Digits[n / 10 % 10], Digits[n % 10]]
  }

  function Dotted(a: seq<Byte>): (r: string)
    requires |a| == 4
  {
    DecimalText(a[0]) + "." + DecimalText(a[1]) + "." + DecimalText(a[2]) + "." + DecimalText(a[3])
  }

  /** Print an address into a buffer of `size` characters, which must have room for the terminator. */
  method Ntop4(a: seq<Byte>, size: nat) returns (r: Option<string>)
    requires |a| == 4
    ensures r == if |Dotted(a)| < size then Some(Dotted(a)) else None
  {
    var text := Dotted(a);
    if |text| >= size {
      return None;
    }
    return Some(text);
  }

  /** Octets finished so far, the one being read, and whether it has a digit yet. */
  datatype State = State(done: seq<Byte>, octet: Byte, sawDigit: bool)

  /** One character: at most four octets, each at most 255 and without leading zeros. */
  function Step(s: State, c: char): (r: Option<State>) {
    var d := Decimal(c);
    if d.Some? then
      if s.sawDigit && s.octet == 0 then None
      else if s.octet * 10 + d.value > 255 then None
      else if !s.sawDigit && |s.done| >= 4 then None
      else Some(State(s.done, s.octet * 10 + d.value, true))
    else if c == '.' && s.sawDigit && |s.done| < 3 then Some(State(s.done + [s.octet], 0, false))
    else None
  }

  function Parse(text: string, s: State): (r: Option<seq<Byte>>)
    decreases |text|
  {
    if text == [] then
      if |s.done| == 3 && s.sawDigit then Some(s.done + [s.octet]) else None
    else
      var next := Step(s, text[0]);
      if next.Some? then Parse(text[1..], next.value) else None
  }

  /** Accepts exactly the texts that printing yields. */
  method Pton4(src: string) returns (r: Option<seq<Byte>>)
    ensures r == Parse(src, State([], 0, false))
    ensures r.Some? ==> |r.value| == 4 && src == Dotted(r.value)
    ensures r.None? ==> forall a: seq<Byte> :: |a| == 4 ==> src != Dotted(a)
  {
    AcceptedTexts(src);
    hide Dotted;
    var text, s := src, State([], 0, false);
    while text != []
      invariant Parse(src, State([], 0, false)) == Parse(text, s)
      decreases |text|
    {
      var next := Step(s, text[0]);
      if next.None? {
        return None;
      }
      s, text := next.value, text[1..];
    }
    return if |s.done| == 3 && s.sawDigit then Some(s.done + [s.octet]) else None;
  }

  lemma DigitReads(d: nat)
    requires d < 10
    ensures Decimal(Digits[d]) == Some(d)
  {
    assert Digits == ['0', '1', '2', '3', '4', '5', '6', '7', '8', '9', 'a', 'b', 'c', 'd', 'e', 'f'];
  }

  lemma OneDigit(d: nat, rest: string, s: State)
    requires d < 10 && !(s.sawDigit && s.octet == 0) && s.octet * 10 + d <= 255 && |s.done| < 4
    ensures Parse([Digits[d]] + rest, s) == Parse(rest, State(s.done, s.octet * 10 + d, true))
  {
    DigitReads(d);
    hide Decimal;
    var c := Digits[d];
    assert ([c] + rest)[0] == c && ([c] + rest)[1..] == rest;
    assert Step(s, c) == Some(State(s.done, s.octet * 10 + d, true));
    hide Step;
  }

  lemma TwoDigits(a: nat, b: nat, rest: string, s: State)
    requires 0 < a < 10 && b < 10 && !s.sawDigit && s.octet == 0 && |s.done| < 4
    ensures Parse([Digits[a], Digits[b]] + rest, s) == Parse(rest, State(s.done, 10 * a + b, true))
  {
    hide Parse;
    assert [Digits[a], Digits[b]] + rest == [Digits[a]] + ([Digits[b]] + rest);
    OneDigit(a, [Digits[b]] + rest, s);
    OneDigit(b, rest, State(s.done, a, true));
  }

  lemma ThreeDigits(a: nat, b: nat, c: nat, rest: string, s: State)
    requires 0 < a < 10 && b < 10 && c < 10 && 100 * a + 10 * b + c < 256 && !s.sawDigit && s.octet == 0 && |s.done| < 4
    ensures Parse([Digits[a], Digits[b], Digits[c]] + rest, s) == Parse(rest, State(s.done, 100 * a + 10 * b + c, true))
  {
    hide Parse;
    assert [Digits[a], Digits[b], Digits[c]] + rest == [Digits[a], Digits[b]] + ([Digits[c]] + rest);
    TwoDigits(a, b, [Digits[c]] + rest, s);
    OneDigit(c, rest, State(s.done, 10 * a + b, true));
  }

  /** The digits of an octet are read back as that octet. */
  lemma OctetReads(n: nat, rest: string, done: seq<Byte>)
    requires n < 256 && |done| < 4
    ensures Parse(DecimalText(n) + rest, State(done, 0, false)) == Parse(rest, State(done, n, true))
  {
    hide Parse;
    var s := State(done, 0, false);
    if n < 10 {
      OneDigit(n, rest, s);
    } else if n < 100 {
      TwoDigits(n / 10, n % 10, rest, s);
    } else {
      ThreeDigits(n / 100, n / 10 % 10, n % 10, rest, s);
    }
  }

  lemma DotReads(rest: string, done: seq<Byte>, n: Byte)
    requires |done| < 3
    ensures Parse("." + rest, State(done, n, true)) == Parse(rest, State(done + [n], 0, false))
  {
    assert ("." + rest)[1..] == rest;
  }

  /** Every address is read back from its text. */
  lemma RoundTrip4(a: seq<Byte>)
    requires |a| == 4
    ensures Parse(Dotted(a), State([], 0, false)) == Some(a)
  {
    hide Parse, DecimalText;
    var d := DecimalText(a[3]);
    var c := DecimalText(a[2]) + ("." + d);
    var b := DecimalText(a[1]) + ("." + c);
    assert Dotted(a) == DecimalText(a[0]) + ("." + b) && d == d + "";
    var one, two, three := a[..1], a[..2], a[..3];
    assert [] + [a[0]] == one && one + [a[1]] == two && two + [a[2]] == three && three + [a[3]] == a;
    OctetReads(a[0], "." + b, []);
    DotReads(b, [], a[0]);
    OctetReads(a[1], "." + c, one);
    DotReads(c, one, a[1]);
    OctetReads(a[2], "." + d, two);
    DotReads(d, two, a[2]);
    OctetReads(a[3], "", three);
    End(three, a[3]);
  }

  lemma End(done: seq<Byte>, n: Byte)
    requires |done| == 3
    ensures Parse("", State(done, n, true)) == Some(done + [n])
  {
  }

  // ----- only what is printed is read -----

  function Before(done: seq<Byte>): (r: string) {
    if done == [] then "" else Before(done[..|done| - 1]) + DecimalText(done[|done| - 1]) + "."
  }

  /** The one text that leads to a state. */
  function Consumed(s: State): (r: string) {
    Before(s.done) + if s.sawDigit then DecimalText(s.octet) else ""
  }

  predicate Reachable(s: State) {
    |s.done| <= 3 && (s.sawDigit || s.octet == 0)
  }

  /** A digit after an octet without leading zeros is the last digit of a longer octet. */
  lemma LongerOctet(n: Byte, d: nat)
    requires 0 < n && d < 10 && n * 10 + d <= 255
    ensures DecimalText(n * 10 + d) == DecimalText(n) + [Digits[d]]
  {
    var m := n * 10 + d;
    assert m / 10 == n && m % 10 == d && m / 100 == n / 10;
  }

  lemma DigitIs(c: char)
    requires Decimal(c).Some?
    ensures Decimal(c).value < 10 && c == Digits[Decimal(c).value]
  {
    assert Digits == ['0', '1', '2', '3', '4', '5', '6', '7', '8', '9', 'a', 'b', 'c', 'd', 'e', 'f'];
    assert c as int == '0' as int + Decimal(c).value;
  }

  lemma StepConsumes(s: State, c: char)
    requires Reachable(s) && Step(s, c).Some?
    ensures Reachable(Step(s, c).value) && Consumed(Step(s, c).value) == Consumed(s) + [c]
  {
    hide Digits;
    var t := Step(s, c).value;
    if Decimal(c).Some? {
      DigitIs(c);
      if s.sawDigit {
        LongerOctet(s.octet, Decimal(c).value);
      }
    } else {
      assert t.done[..|t.done| - 1] == s.done;
    }
  }

  lemma BeforeIsDotted(done: seq<Byte>, n: Byte)
    requires |done| == 3
    ensures Before(done) + DecimalText(n) == Dotted(done + [n])
  {
    hide DecimalText;
    assert done[..2][..1][..0] == [];
    assert Before(done[..2][..1]) == DecimalText(done[0]) + ".";
    assert Before(done[..2]) == DecimalText(done[0]) + "." + DecimalText(done[1]) + ".";
  }

  lemma {:induction false} AcceptedIsDotted(text: string, s: State)
    requires Reachable(s) && Parse(text, s).Some?
    ensures |Parse(text, s).value| == 4 && Consumed(s) + text == Dotted(Parse(text, s).value)
    decreases |text|
  {
    hide Step, Dotted, Reachable, DecimalText;
    if text == [] {
      BeforeIsDotted(s.done, s.octet);
      assert Consumed(s) + text == Consumed(s);
    } else {
      hide Consumed;
      StepConsumes(s, text[0]);
      AcceptedIsDotted(text[1..], Step(s, text[0]).value);
      assert Consumed(s) + text == Consumed(s) + [text[0]] + text[1..];
    }
  }

  /** A text is read as an address exactly if it is the text of that address. */
  lemma AcceptedTexts(text: string)
    ensures forall a: seq<Byte> :: Parse(text, State([], 0, false)) == Some(a) <==> |a| == 4 && text == Dotted(a)
  {
    hide Parse, Dotted;
    forall a: seq<Byte> ensures Parse(text, State([], 0, false)) == Some(a) <==> |a| == 4 && text == Dotted(a) {
      if Parse(text, State([], 0, false)) == Some(a) {
        AcceptedIsDotted(text, State([], 0, false));
        assert Consumed(State([], 0, false)) + text == text;
      }
      if |a| == 4 && text == Dotted(a) {
        RoundTrip4(a);
      }
    }
  }
}
