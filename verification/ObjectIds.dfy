/** Finding object ids in a validator's error text. */
module ObjectIds {
  import opened Bytes
  import Hex

  /** An object id: the 32 bytes its 64 digits spell. */
  type Id = seq<Byte>

  const ID_DIGITS: nat := 64

  /** How many hex digits the text starts with. */
  function DigitRun(s: string): (n: nat)
    ensures n <= |s| && Hex.AllDigits(s[..n]) && (n < |s| ==> !Hex.IsDigit(s[n]))
  {
    if s == "" || !Hex.IsDigit(s[0]) then 0
    else
      var n := DigitRun(s[1..]);
      assert s[..n + 1] == [s[0]] + s[1..][..n];
      1 + n
  }

  /** The id of one run of digits: exactly 64 of them, or nothing. */
  function IdOf(digits: string): seq<Id>
    requires Hex.AllDigits(digits)
  {
    if |digits| == ID_DIGITS then [Hex.Decode(digits).value] else []
  }

  /** The ids the scan reports, from the front. */
  function Scan(s: string): seq<Id> {
    if |s| < 2 then []
    else if s[0] == '0' && s[1] == 'x' then
      var n := DigitRun(s[2..]);
      IdOf(s[2..][..n]) + Scan(s[2 + n..])
    else Scan(s[1..])
  }

  /** `parse_object_ids`. Each turn advances, so the scan ends. */
  method ParseObjectIds(msg: string) returns (out: seq<Id>)
    ensures out == Scan(msg)
  {
    out := [];
    var i := 0;
    while i + 2 <= |msg|
      invariant i <= |msg|
      invariant out + Scan(msg[i..]) == Scan(msg)
    {
      if msg[i] == '0' && msg[i + 1] == 'x' {
        var start := i + 2;
        var end := DigitsEnd(msg, start);
        ScanAt(msg, i, end);
        Assoc(out, IdOf(msg[start..end]), Scan(msg[end..]));
        out := PushId(out, msg[start..end]);
        i := if end < i + 2 then i + 2 else end;
      } else {
        ScanSkips(msg, i);
        i := i + 1;
      }
    }
    assert Scan(msg[i..]) == [];
  }

  method PushId(out: seq<Id>, digits: string) returns (r: seq<Id>)
    requires Hex.AllDigits(digits)
    ensures r == out + IdOf(digits)
  {
    r := out;
    if |digits| == ID_DIGITS { r := r + [Hex.Decode(digits).value]; }
  }

  lemma ScanSkips(msg: string, i: nat)
    requires i + 2 <= |msg| && !(msg[i] == '0' && msg[i + 1] == 'x')
    ensures Scan(msg[i..]) == Scan(msg[i + 1..])
  {
    assert msg[i..][1..] == msg[i + 1..];
  }

  lemma ScanAt(msg: string, i: nat, end: nat)
    requires i + 2 <= |msg| && msg[i] == '0' && msg[i + 1] == 'x'
    requires i + 2 <= end <= |msg| && end - i - 2 == DigitRun(msg[i + 2..]) && Hex.AllDigits(msg[i + 2..end])
    ensures Scan(msg[i..]) == IdOf(msg[i + 2..end]) + Scan(msg[end..])
  {
    var rest := msg[i..];
    assert rest[2..] == msg[i + 2..] && rest[2..][..end - i - 2] == msg[i + 2..end] && rest[end - i..] == msg[end..];
  }

  method DigitsEnd(msg: string, start: nat) returns (end: nat)
    requires start <= |msg|
    ensures start <= end <= |msg| && end - start == DigitRun(msg[start..]) && Hex.AllDigits(msg[start..end])
  {
    end := start;
    while end < |msg| && Hex.IsDigit(msg[end])
      invariant start <= end <= |msg|
      invariant end - start + DigitRun(msg[end..]) == DigitRun(msg[start..])
    {
      assert msg[end..][1..] == msg[end + 1..];
      end := end + 1;
    }
    assert msg[start..end] == msg[start..][..end - start];
  }

  // ----- Printed ids are found again

  /** Text in which no `0x` begins. */
  predicate NoMarker(s: string) {
    forall i :: 0 <= i < |s| - 1 ==> !(s[i] == '0' && s[i + 1] == 'x')
  }

  /** A printed number and the text up to the next one. */
  datatype Token = Token(digits: string, gap: string)

  function Print(tokens: seq<Token>): string {
    if tokens == [] then "" else "0x" + (tokens[0].digits + (tokens[0].gap + Print(tokens[1..])))
  }

  /** Each number is followed by something other than a hex digit, or ends the text; no other
      `0x` occurs. */
  predicate WellSeparated(tokens: seq<Token>) {
    forall i :: 0 <= i < |tokens| ==>
      && Hex.AllDigits(tokens[i].digits) && NoMarker(tokens[i].gap)
      && (if tokens[i].gap == "" then i == |tokens| - 1 else !Hex.IsDigit(tokens[i].gap[0]))
  }

  function IdsOf(tokens: seq<Token>): seq<Id>
    requires forall i :: 0 <= i < |tokens| ==> Hex.AllDigits(tokens[i].digits)
  {
    if tokens == [] then [] else IdOf(tokens[0].digits) + IdsOf(tokens[1..])
  }

  lemma {:induction false} RunOfDigits(d: string, rest: string)
    requires Hex.AllDigits(d) && (rest == "" || !Hex.IsDigit(rest[0]))
    ensures DigitRun(d + rest) == |d|
  {
    if d == "" {
      assert d + rest == rest;
    } else {
      RunOfDigits(d[1..], rest);
      assert (d + rest)[1..] == d[1..] + rest;
    }
  }

  lemma ScanNumber(d: string, rest: string)
    requires Hex.AllDigits(d) && (rest == "" || !Hex.IsDigit(rest[0]))
    ensures Scan("0x" + (d + rest)) == IdOf(d) + Scan(rest)
  {
    var s := "0x" + (d + rest);
    RunOfDigits(d, rest);
    assert s[2..] == d + rest && (d + rest)[..|d|] == d && s[2 + |d|..] == rest;
  }

  lemma {:induction false} ScanGap(gap: string, rest: string)
    requires NoMarker(gap) && (rest == "" || rest[0] == '0')
    ensures Scan(gap + rest) == Scan(rest)
  {
    var s := gap + rest;
    if gap == "" {
      assert s == rest;
    } else {
      ScanGap(gap[1..], rest);
      assert s[1..] == gap[1..] + rest;
      if |s| >= 2 { assert s[1] == (if |gap| > 1 then gap[1] else rest[0]); }
    }
  }

  /** For any text made of printed numbers and harmless gaps, the scan reports the 64-digit ones,
      in order, each once; other numbers, such as versions, are passed over. */
  lemma {:induction false} ScanFindsIds(lead: string, tokens: seq<Token>)
    requires NoMarker(lead) && WellSeparated(tokens)
    ensures Scan(lead + Print(tokens)) == IdsOf(tokens)
    decreases |tokens|
  {
    ScanGap(lead, Print(tokens));
    if tokens != [] {
      var t, rest := tokens[0], Print(tokens[1..]);
      ScanFindsIds(t.gap, tokens[1..]);
      if t.gap != "" { assert (t.gap + rest)[0] == t.gap[0]; }
      ScanNumber(t.digits, t.gap + rest);
    }
  }

  /** Printed with `0x` in front and separated by a character that is no hex digit, any list of
      ids comes back exactly. */
  lemma {:induction false} IdsRoundTrip(lead: string, ids: seq<Id>, tokens: seq<Token>)
    requires NoMarker(lead) && WellSeparated(tokens) && |tokens| == |ids|
    requires forall i :: 0 <= i < |ids| ==> |ids[i]| == 32 && tokens[i].digits == Hex.Encode(ids[i])
    ensures Scan(lead + Print(tokens)) == ids
  {
    ScanFindsIds(lead, tokens);
    IdsBack(ids, tokens);
  }

  lemma {:induction false} IdsBack(ids: seq<Id>, tokens: seq<Token>)
    requires |tokens| == |ids| && forall i :: 0 <= i < |tokens| ==> Hex.AllDigits(tokens[i].digits)
    requires forall i :: 0 <= i < |ids| ==> |ids[i]| == 32 && tokens[i].digits == Hex.Encode(ids[i])
    ensures IdsOf(tokens) == ids
  {
    if ids != [] {
      Hex.DecodeEncode(ids[0]);
      IdsBack(ids[1..], tokens[1..]);
      assert ids == [ids[0]] + ids[1..];
    }
  }
}
