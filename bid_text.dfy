/**
 * The bid history of the auction room is a list of display strings
 * `Bid: ₹{total} by {name}` (components/AuctionPage.tsx). The previous high is
 * not kept as a number: it is read back from the last string with
 * `split(": ")[1].split(" ")[0].replace("₹", "")` and `parseInt`.
 * This module models that formatter and that parser with the JavaScript string
 * operations they use, and proves that parsing a formatted message gives back
 * its total.
 */
module BidText {
  import opened Wrappers

  /** The rupee sign written in front of every amount. */
  const Rupee: char := '₹'

  predicate IsDigit(c: char) {
    '0' <= c <= '9'
  }

  predicate AllDigits(s: string) {
    forall i :: 0 <= i < |s| ==> IsDigit(s[i])
  }

  function DigitChar(d: nat): (c: char)
    requires d < 10
    ensures IsDigit(c)
  {
    ('0' as int + d) as char
  }

  function DigitValue(c: char): (d: nat)
    requires IsDigit(c)
    ensures d < 10
  {
    c as int - '0' as int
  }

  /** Decimal text of a natural number, most significant digit first, without leading zeros. */
  function NatToString(n: nat): (s: string)
    ensures AllDigits(s)
    ensures |s| == 1 <==> n < 10
    ensures |s| > 1 ==> s[0] != '0'
    decreases n
  {
    if n < 10 then [DigitChar(n)] else NatToString(n / 10) + [DigitChar(n % 10)]
  }

  /** Value of a string of decimal digits, most significant digit first. */
  function DigitsValue(s: string): nat
    requires AllDigits(s)
  {
    if s == [] then 0 else DigitsValue(s[..|s| - 1]) * 10 + DigitValue(s[|s| - 1])
  }

  lemma {:induction false} NatToStringRoundTrip(n: nat)
    ensures DigitsValue(NatToString(n)) == n
  {
    if n >= 10 {
      var s := NatToString(n);
      assert s[..|s| - 1] == NatToString(n / 10);
      NatToStringRoundTrip(n / 10);
    }
  }

  /**
   * `${n}` for an integral number: a minus sign for negative values, then the
   * decimal digits of the magnitude. No character of it is a space, a colon or
   * the rupee sign.
   */
  function IntToString(n: int): (s: string)
    ensures s != []
    ensures s[0] == '-' <==> n < 0
    ensures forall i :: 0 <= i < |s| ==> IsDigit(s[i]) || (i == 0 && s[i] == '-')
    ensures ' ' !in s && ':' !in s && Rupee !in s
  {
    if n < 0 then "-" + NatToString(-n) else NatToString(n)
  }

  /** The longest prefix of `s` made of decimal digits. */
  function LeadingDigits(s: string): (d: string)
    ensures d <= s && AllDigits(d)
    ensures d == s || !IsDigit(s[|d|])
  {
    if s == [] || !IsDigit(s[0]) then [] else [s[0]] + LeadingDigits(s[1..])
  }

  /**
   * `parseInt(s)` on a string with no leading white space: an optional sign,
   * then the longest run of decimal digits; None stands for NaN (no digit).
   */
  function ParseInt(s: string): (r: Option<int>)
    ensures r.None? <==> s == [] || (!IsDigit(s[0]) && !((s[0] == '-' || s[0] == '+') && |s| > 1 && IsDigit(s[1])))
    ensures r.Some? && s[0] == '-' ==> r.value <= 0
    ensures r.Some? && s[0] != '-' ==> r.value >= 0
    ensures s != [] && AllDigits(s) ==> r == Some(DigitsValue(s))
  {
    if s != [] && (s[0] == '-' || s[0] == '+') then
      var d := LeadingDigits(s[1..]);
      if d == [] then None
      else
        var v: int := DigitsValue(d);
        if s[0] == '-' then Some(-v) else Some(v)
    else
      var d := LeadingDigits(s);
      assert AllDigits(s) ==> d == s;
      if d == [] then None else Some(DigitsValue(d))
  }

  /** `parseInt` reads back every integer that `${n}` writes. */
  lemma ParseIntRoundTrip(n: int)
    ensures ParseInt(IntToString(n)) == Some(n)
  {
    var s := IntToString(n);
    if n < 0 {
      var m: nat := -n;
      assert s[1..] == NatToString(m);
      assert LeadingDigits(s[1..]) == s[1..];
      NatToStringRoundTrip(m);
    } else {
      NatToStringRoundTrip(n);
    }
  }

  /**
   * The text of `s` before the first occurrence of `sep`, or all of `s` when
   * `sep` does not occur: element 0 of `s.split(sep)`.
   */
  function TakeUntil(s: string, sep: string): (r: string)
    requires sep != []
    ensures r <= s
    ensures r == s || sep <= s[|r|..]
  {
    if s == [] || sep <= s then [] else [s[0]] + TakeUntil(s[1..], sep)
  }

  /** `TakeUntil` stops at the FIRST occurrence: `sep` starts nowhere inside the part it keeps. */
  lemma {:induction false} TakeUntilStopsAtFirst(s: string, sep: string, i: nat)
    requires sep != [] && i < |TakeUntil(s, sep)|
    ensures !(sep <= s[i..])
  {
    if i > 0 {
      assert s[i..] == s[1..][i - 1..];
      TakeUntilStopsAtFirst(s[1..], sep, i - 1);
    }
  }

  /** The text of `s` after the first occurrence of `sep`; None when `sep` does not occur. */
  function After(s: string, sep: string): (r: Option<string>)
    requires sep != []
  {
    if s == [] then None
    else if sep <= s then Some(s[|sep|..])
    else After(s[1..], sep)
  }

  /** `After` finds nothing exactly when `sep` starts nowhere in `s`. */
  lemma {:induction false} AfterNoneIff(s: string, sep: string)
    requires sep != []
    ensures After(s, sep).None? <==> forall i :: 0 <= i < |s| ==> !(sep <= s[i..])
  {
    if s != [] {
      assert s[0..] == s;
    }
    if s != [] && !(sep <= s) {
      AfterNoneIff(s[1..], sep);
      forall i | 1 <= i < |s| ensures s[i..] == s[1..][i - 1..] {
      }
    }
  }

  /**
   * `After` and `TakeUntil` cut at the same place: `s` is the text before the
   * first `sep`, then `sep`, then what `After` returns; and when `After` finds
   * nothing, `TakeUntil` keeps all of `s`.
   */
  lemma {:induction false} AfterSplits(s: string, sep: string)
    requires sep != []
    ensures After(s, sep).Some? ==> s == TakeUntil(s, sep) + sep + After(s, sep).value
    ensures After(s, sep).None? ==> TakeUntil(s, sep) == s
  {
    if s != [] && !(sep <= s) {
      AfterSplits(s[1..], sep);
    }
  }

  /**
   * Element 1 of `s.split(sep)`: the text between the first and the second
   * occurrence of `sep` (or the end). It is `undefined` when `sep` does not
   * occur, and None here.
   */
  function SecondField(s: string, sep: string): Option<string>
    requires sep != []
  {
    match After(s, sep)
    case None => None
    case Some(rest) => Some(TakeUntil(rest, sep))
  }

  /** The position of the first `c` in `s`. */
  function FirstIndex(s: string, c: char): (i: nat)
    requires c in s
    ensures i < |s| && s[i] == c && c !in s[..i]
  {
    if s[0] == c then 0 else 1 + FirstIndex(s[1..], c)
  }

  /** `s.replace(c, "")` for a one-character pattern. */
  function ReplaceFirst(s: string, c: char): (r: string)
    ensures c !in s ==> r == s
  {
    if s == [] then []
    else if s[0] == c then s[1..]
    else [s[0]] + ReplaceFirst(s[1..], c)
  }

  /** Only the first occurrence of `c` goes; everything before and after it is kept. */
  lemma {:induction false} ReplaceFirstRemovesFirst(s: string, c: char)
    requires c in s
    ensures ReplaceFirst(s, c) == s[..FirstIndex(s, c)] + s[FirstIndex(s, c) + 1..]
  {
    if s[0] != c {
      var j := FirstIndex(s[1..], c);
      ReplaceFirstRemovesFirst(s[1..], c);
      assert s[..j + 1] == [s[0]] + s[1..][..j];
      assert s[j + 2..] == s[1..][j + 1..];
    }
  }

  /** `Bid: ₹${total} by ${name}`, the message an accepted bid appends. */
  function FormatBid(total: int, name: string): (msg: string)
    ensures "Bid: " + [Rupee] <= msg
    ensures SecondField(msg, ": ") == Some([Rupee] + IntToString(total) + " by " + TakeUntil(name, ": "))
  {
    SecondFieldOfBid(IntToString(total), name);
    "Bid: " + [Rupee] + IntToString(total) + " by " + name
  }

  /** What reading an amount out of a bid message gives. */
  datatype Parsed =
    | NoField            // the message has no ": ", so `split(": ")[1]` is undefined and the next call throws
    | NotANumber         // `parseInt` returned NaN
    | Number(value: int)

  /** `parseInt(msg.split(": ")[1].split(" ")[0].replace("₹", ""))`. */
  function ParseBidAmount(msg: string): Parsed
  {
    match SecondField(msg, ": ")
    case None => NoField
    case Some(field) =>
      match ParseInt(ReplaceFirst(TakeUntil(field, " "), Rupee))
      case None => NotANumber
      case Some(n) => Number(n)
  }

  /**
   * Reading a message fails with an exception (`split(": ")[1]` is undefined)
   * exactly when ": " occurs nowhere in it.
   */
  lemma NoFieldIffNoSeparator(msg: string)
    ensures ParseBidAmount(msg) == NoField <==> forall i :: 0 <= i < |msg| ==> !(": " <= msg[i..])
  {
    AfterNoneIff(msg, ": ");
  }

  /** Text free of `sep`'s first character can be skipped when looking for `sep`. */
  lemma {:induction false} TakeUntilSkip(p: string, rest: string, sep: string)
    requires sep != [] && sep[0] !in p
    ensures TakeUntil(p + rest, sep) == p + TakeUntil(rest, sep)
  {
    if p != [] {
      var s := p + rest;
      assert s[0] == p[0] && s[0] != sep[0];
      assert !(sep <= s);
      assert s[1..] == p[1..] + rest;
      assert sep[0] !in p[1..];
      TakeUntilSkip(p[1..], rest, sep);
      assert TakeUntil(s, sep) == [p[0]] + TakeUntil(s[1..], sep);
      assert [p[0]] + (p[1..] + TakeUntil(rest, sep)) == p + TakeUntil(rest, sep);
    } else {
      assert p + rest == rest;
    }
  }

  lemma {:induction false} AfterSkip(p: string, rest: string, sep: string)
    requires sep != [] && sep[0] !in p
    ensures After(p + rest, sep) == After(rest, sep)
  {
    if p != [] {
      var s := p + rest;
      assert s[0] == p[0] && s[0] != sep[0];
      assert !(sep <= s);
      assert s[1..] == p[1..] + rest;
      assert sep[0] !in p[1..];
      AfterSkip(p[1..], rest, sep);
    } else {
      assert p + rest == rest;
    }
  }

  /**
   * Round trip: for every integer total and every buyer name, reading the amount
   * out of the formatted message gives the total back. A name that itself holds
   * ": ", spaces or rupee signs does not disturb it, because the amount comes
   * before the name.
   */
  lemma BidMessageRoundTrip(total: int, name: string)
    ensures ParseBidAmount(FormatBid(total, name)) == Number(total)
  {
    var d := IntToString(total);
    var tail := TakeUntil(name, ": ");
    assert SecondField(FormatBid(total, name), ": ") == Some([Rupee] + d + " by " + tail);
    AmountOfField(d, tail);
    ParseIntRoundTrip(total);
  }

  /** From `₹{d} by {tail}`, `split(" ")[0].replace("₹", "")` keeps exactly `d`. */
  lemma AmountOfField(d: string, tail: string)
    requires ' ' !in d
    ensures ReplaceFirst(TakeUntil([Rupee] + d + " by " + tail, " "), Rupee) == d
  {
    assert [Rupee] + d + " by " + tail == [Rupee] + d + (" " + ("by " + tail));
    AmountToken(d, "by " + tail);
    assert ([Rupee] + d)[1..] == d;
  }

  /** `split(": ")[1]` of a bid message keeps the amount and the name up to its first ": ". */
  lemma SecondFieldOfBid(d: string, name: string)
    requires ':' !in d
    ensures SecondField("Bid: " + [Rupee] + d + " by " + name, ": ")
         == Some([Rupee] + d + " by " + TakeUntil(name, ": "))
  {
    var head := [Rupee] + d + " by ";
    var tail := head + name;
    assert "Bid: " + [Rupee] + d + " by " + name == "Bid" + (": " + tail);
    AfterSkip("Bid", ": " + tail, ": ");
    assert After(": " + tail, ": ") == Some(tail);
    assert ':' !in head;
    TakeUntilSkip(head, name, ": ");
  }

  /** `split(" ")[0]` of that field is the rupee sign followed by the amount. */
  lemma AmountToken(d: string, rest: string)
    requires ' ' !in d
    ensures TakeUntil([Rupee] + d + (" " + rest), " ") == [Rupee] + d
  {
    TakeUntilSkip([Rupee] + d, " " + rest, " ");
  }
}
