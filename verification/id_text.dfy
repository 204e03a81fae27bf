/** Identifiers as text, and lists of identifiers as one comma-separated
    string: the composite key a batch create hands back and a batch lookup
    takes. An identifier is written as lower-case hexadecimal digits, so
    it never contains the separator. */
module IdText {
  import opened Common
  import opened Entities

  const Separator: char := ','

  predicate IsHexDigit(c: char)
  {
    '0' <= c <= '9' || 'a' <= c <= 'f'
  }

  predicate IsHexText(s: string)
  {
    forall i :: 0 <= i < |s| ==> IsHexDigit(s[i])
  }

  function DigitValue(c: char): (d: nat)
    requires IsHexDigit(c)
    ensures d < 16
  {
    if c <= '9' then (c as int - '0' as int) else (c as int - 'a' as int + 10)
  }

  function DigitChar(d: nat): (c: char)
    requires d < 16
    ensures IsHexDigit(c) && DigitValue(c) == d
  {
    if d < 10 then ('0' as int + d) as char else ('a' as int + d - 10) as char
  }

  /** The text of an identifier: its hexadecimal digits, most significant
      first, without leading zeros. */
  function IdToText(g: Guid): (s: string)
    ensures |s| > 0 && IsHexText(s)
    ensures Separator !in s
    decreases g
  {
    if g < 16 then [DigitChar(g)] else IdToText(g / 16) + [DigitChar(g % 16)]
  }

  /** The number a string of hexadecimal digits denotes. */
  function HexValue(s: string): nat
    requires IsHexText(s)
    decreases |s|
  {
    if s == [] then 0 else HexValue(s[..|s| - 1]) * 16 + DigitValue(s[|s| - 1])
  }

  /** Reading the text of an identifier back gives the identifier. */
  lemma {:induction false} HexValueOfIdToText(g: Guid)
    ensures HexValue(IdToText(g)) == g
    decreases g
  {
    var s := IdToText(g);
    if g >= 16 {
      HexValueOfIdToText(g / 16);
      assert s[..|s| - 1] == IdToText(g / 16);
    }
  }

  function ParseId(s: string): (r: Option<Guid>)
    ensures r.Some? <==> |s| > 0 && IsHexText(s)
  {
    if |s| > 0 && IsHexText(s) then Some(HexValue(s)) else None
  }

  /** `string.Join(",", parts)`. */
  function Join(parts: seq<string>): (s: string)
    ensures |parts| == 1 ==> s == parts[0]
    decreases |parts|
  {
    if parts == [] then []
    else if |parts| == 1 then parts[0]
    else parts[0] + [Separator] + Join(parts[1..])
  }

  /** The index of the first separator, or the length when there is none. */
  function FirstSeparator(s: string): (i: nat)
    ensures i <= |s|
    ensures forall j :: 0 <= j < i ==> s[j] != Separator
    ensures i < |s| ==> s[i] == Separator
    decreases |s|
  {
    if s == [] then 0 else if s[0] == Separator then 0 else 1 + FirstSeparator(s[1..])
  }

  /** The pieces of `s` between separators; always at least one. */
  function Split(s: string): (parts: seq<string>)
    ensures |parts| > 0
    ensures forall i :: 0 <= i < |parts| ==> Separator !in parts[i]
    decreases |s|
  {
    var i := FirstSeparator(s);
    if i == |s| then [s] else [s[..i]] + Split(s[i + 1..])
  }

  /** The first separator after a separator-free piece is the one that
      follows it. */
  lemma FirstSeparatorOfJoin(piece: string, rest: string)
    requires Separator !in piece
    ensures FirstSeparator(piece + [Separator] + rest) == |piece|
  {
    var s := piece + [Separator] + rest;
    assert s[|piece|] == Separator;
    assert forall j :: 0 <= j < |piece| ==> s[j] == piece[j];
  }

  /** Splitting a join of separator-free pieces gives the pieces back. */
  lemma {:induction false} SplitJoin(parts: seq<string>)
    requires |parts| > 0
    requires forall i :: 0 <= i < |parts| ==> Separator !in parts[i]
    ensures Split(Join(parts)) == parts
    decreases |parts|
  {
    if |parts| == 1 {
      assert FirstSeparator(parts[0]) == |parts[0]|;
    } else {
      var rest := Join(parts[1..]);
      var s := parts[0] + [Separator] + rest;
      FirstSeparatorOfJoin(parts[0], rest);
      assert s[..|parts[0]|] == parts[0];
      assert s[|parts[0]| + 1..] == rest;
      SplitJoin(parts[1..]);
      assert parts == [parts[0]] + parts[1..];
    }
  }

  function IdsToTexts(ids: seq<Guid>): (ts: seq<string>)
    ensures |ts| == |ids|
    ensures forall i :: 0 <= i < |ids| ==> ts[i] == IdToText(ids[i])
  {
    seq(|ids|, i requires 0 <= i < |ids| => IdToText(ids[i]))
  }

  /** The composite key of a batch: the identifiers' texts joined by
      commas, in order. */
  function CompositeId(ids: seq<Guid>): (key: string)
    ensures |ids| == 0 <==> key == []
    ensures |ids| > 0 ==> Split(key) == IdsToTexts(ids)
  {
    var ts := IdsToTexts(ids);
    if |ids| > 0 then SplitJoin(ts); Join(ts) else Join(ts)
  }

  /** Each piece parsed as an identifier, or nothing if any piece is not
      one. */
  function ParseIds(parts: seq<string>): (r: Option<seq<Guid>>)
    ensures r.Some? ==> |r.value| == |parts|
    ensures r.Some? <==> forall i :: 0 <= i < |parts| ==> ParseId(parts[i]).Some?
    ensures r.Some? ==> forall i :: 0 <= i < |parts| ==> Some(r.value[i]) == ParseId(parts[i])
    decreases |parts|
  {
    if parts == [] then Some([])
    else
      match (ParseId(parts[0]), ParseIds(parts[1..]))
      case (Some(g), Some(gs)) => Some([g] + gs)
      case _ => None
  }

  /** A composite key read back as a list of identifiers. */
  function ParseIdList(s: string): Option<seq<Guid>>
  {
    ParseIds(Split(s))
  }

  /** The composite key of a non-empty batch reads back as exactly the
      batch's identifiers, in order. */
  lemma CompositeIdRoundTrip(ids: seq<Guid>)
    requires |ids| > 0
    ensures ParseIdList(CompositeId(ids)) == Some(ids)
  {
    var ts := IdsToTexts(ids);
    SplitJoin(ts);
    forall i | 0 <= i < |ids|
      ensures ParseId(ts[i]) == Some(ids[i])
    {
      HexValueOfIdToText(ids[i]);
    }
    var r := ParseIds(ts);
    assert r.value == ids;
  }
}
