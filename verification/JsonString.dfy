/**
 String literals: `parse_string` of src/core/cJSON.c reads a literal twice. The first pass
 pairs every backslash with the byte after it, finds the closing quote and sizes the output;
 the second pass decodes. A malformed \u escape counts as six bytes in the second pass, so it
 can swallow half of a pair and leave the two passes out of step.
 */
module JsonString {
  import opened Bytes
  import opened Options
  import opened Utf

  /** First pass: the index of the closing quote of the body that starts at `i`. */
  function ScanEnd(s: Text, i: nat): (r: Option<nat>)
    ensures r.Some? ==> i <= r.value < |s| && s[r.value] == QUOTE
    decreases |s| - i
  {
    if i >= |s| then None
    else if s[i] == QUOTE then Some(i)
    else if s[i] != BACKSLASH then ScanEnd(s, i + 1)
    else if i + 1 >= |s| then None
    else ScanEnd(s, i + 2)
  }

  /** First pass: how many backslash pairs (`skipped_bytes`) it meets between `i` and `end`. */
  ghost function Pairs(s: Text, i: nat, end: nat): (n: nat)
    requires ScanEnd(s, i) == Some(end)
    ensures i + 2 * n <= end
    decreases |s| - i
  {
    if s[i] == QUOTE then 0
    else if s[i] != BACKSLASH then Pairs(s, i + 1, end)
    else 1 + Pairs(s, i + 2, end)
  }

  /** The byte a two-character escape stands for. */
  function SimpleEscape(b: byte): Option<byte> {
    if b == LOWER_B then Some(BACKSPACE)
    else if b == LOWER_F then Some(FORM_FEED)
    else if b == LOWER_N then Some(NEWLINE)
    else if b == LOWER_R then Some(RETURN)
    else if b == LOWER_T then Some(TAB)
    else if b == QUOTE || b == BACKSLASH || b == SLASH then Some(b)
    else None
  }

  function Prepend(t: Text, r: Option<Text>): Option<Text> {
    if r.None? then None else Some(t + r.value)
  }

  lemma PrependTwice(a: Text, b: Text, r: Option<Text>)
    ensures Prepend([], r) == r
    ensures Prepend(a, Prepend(b, r)) == Prepend(a + b, r)
  {
    if r.Some? {
      assert [] + r.value == r.value;
      assert a + (b + r.value) == a + b + r.value;
    }
  }

  datatype Token = Bad | Token(emitted: Text, length: nat)

  /** An escape gives at most one byte for two, and only whole pairs of input bytes. */
  function LiteralToken(l: Literal): (t: Token)
    requires l.Taken? ==>
               (l.length == 6 || l.length == 12) && IsScalar(l.codepoint) && (l.length == 6 ==> l.codepoint < 0x10000)
    ensures t.Token? <==> l.Taken?
    ensures t.Token? ==> t.length == l.length && t.length % 2 == 0 && 1 <= |t.emitted| && |t.emitted| * 2 <= t.length
  {
    if l.Refused? then Bad else Token(Utf8Encode(l.codepoint), l.length)
  }

  /** Second pass: what one round of the loop emits and how many input bytes it uses. */
  function TokenAt(s: Text, i: nat, end: nat): (t: Token)
    requires i < end < |s|
    ensures t.Token? ==> 1 <= t.length && 1 <= |t.emitted|
    ensures t.Token? && t.length == 2 ==> |t.emitted| == 1
    ensures t.Token? && t.length != 1 && t.length != 2 ==>
              i + t.length <= end && t.length % 2 == 0 && |t.emitted| * 2 <= t.length
    ensures t.Token? && t.length == 1 ==> s[i] != BACKSLASH && |t.emitted| == 1
  {
    if s[i] != BACKSLASH then Token([s[i]], 1)
    else if s[i + 1] == LOWER_U then
      LiteralToken(LiteralAt(s, i, end))
    else
      var e := SimpleEscape(s[i + 1]);
      if e.None? then Bad else Token([e.value], 2)
  }

  /** Second pass: the decoded bytes of the body between `i` and `end`. The last escape may
      reach past `end`; decoding then stops all the same. */
  function Decode(s: Text, i: nat, end: nat): (r: Option<Text>)
    requires end < |s|
    decreases |s| - i
  {
    if i >= end then Some([])
    else
      var t := TokenAt(s, i, end);
      if t.Bad? then None else Prepend(t.emitted, Decode(s, i + t.length, end))
  }

  // ---- The two passes, out of step -------------------------------------------------------

  /** The second pass stands at `i` while the next token of the first pass starts at `p`: in
      step when they agree, out of step when `i` is the second byte of a first-pass pair. */
  ghost predicate Straddles(s: Text, i: nat, p: nat, end: nat) {
    ScanEnd(s, p) == Some(end) && (p == i || p == i + 1)
  }

  /** Output bytes that the first pass has reserved for the input from `i` on. */
  ghost function Reserve(s: Text, i: nat, p: nat, end: nat): (n: nat)
    requires Straddles(s, i, p, end)
  {
    end - i - Pairs(s, p, end)
  }

  /** One input byte uses up a unit of the reserve unless it opens a first-pass pair, and then
      the next byte cannot. */
  lemma Advance(s: Text, i: nat, p: nat, end: nat) returns (q: nat)
    requires Straddles(s, i, p, end) && i < end
    ensures Straddles(s, i + 1, q, end)
    ensures Reserve(s, i, p, end) - 1 <= Reserve(s, i + 1, q, end) <= Reserve(s, i, p, end)
    ensures Reserve(s, i, p, end) == Reserve(s, i + 1, q, end) ==> s[i] == BACKSLASH && q == i + 2
    ensures p == i + 1 ==> Reserve(s, i + 1, q, end) == Reserve(s, i, p, end) - 1
  {
    q := if p == i then (if s[i] == BACKSLASH then i + 2 else i + 1) else p;
  }

  /** Any two consecutive input bytes are worth at least one output byte. */
  lemma AdvanceTwo(s: Text, i: nat, p: nat, end: nat) returns (q: nat)
    requires Straddles(s, i, p, end) && i + 2 <= end
    ensures Straddles(s, i + 2, q, end)
    ensures Reserve(s, i + 2, q, end) + 1 <= Reserve(s, i, p, end)
  {
    var m := Advance(s, i, p, end);
    q := Advance(s, i + 1, m, end);
  }

  /** So an escape of `2 * k` bytes leaves room for `k` output bytes. */
  lemma AdvanceMany(s: Text, i: nat, p: nat, end: nat, k: nat) returns (q: nat)
    requires Straddles(s, i, p, end) && i + 2 * k <= end
    ensures Straddles(s, i + 2 * k, q, end)
    ensures Reserve(s, i + 2 * k, q, end) + k <= Reserve(s, i, p, end)
    decreases k
  {
    if k == 0 {
      q := p;
    } else {
      var m := AdvanceTwo(s, i, p, end);
      q := AdvanceMany(s, i + 2, m, end, k - 1);
    }
  }

  /** Every decoding step stays within the reserve, in step or out of step; past the end of the
      body nothing needs to be reserved any more. */
  lemma StepFits(s: Text, i: nat, p: nat, end: nat) returns (q: nat)
    requires Straddles(s, i, p, end) && i < end && TokenAt(s, i, end).Token?
    ensures var t := TokenAt(s, i, end);
            if i + t.length <= end then
              Straddles(s, i + t.length, q, end)
              && |t.emitted| + Reserve(s, i + t.length, q, end) <= Reserve(s, i, p, end)
            else |t.emitted| <= Reserve(s, i, p, end)
  {
    if s[i] != BACKSLASH {
      q := Advance(s, i, p, end);
    } else if i + 1 == end {
      // The backslash is the second half of a pair, and the closing quote follows.
      assert p == end;
      q := end;
    } else {
      q := AdvanceMany(s, i, p, end, TokenAt(s, i, end).length / 2);
    }
  }

  /** The bytes that the second pass writes fit what the first pass reserved, for every input. */
  lemma {:induction false} DecodedFits(s: Text, i: nat, p: nat, end: nat)
    requires Straddles(s, i, p, end) && i <= end
    requires Decode(s, i, end).Some?
    ensures |Decode(s, i, end).value| <= Reserve(s, i, p, end)
    decreases end - i
  {
    if i < end {
      var q := StepFits(s, i, p, end);
      var next := i + TokenAt(s, i, end).length;
      if next <= end {
        DecodedFits(s, next, q, end);
      }
    }
  }

  /** The passes do get out of step: in a backslash, "u000", two backslashes and the closing quote
      the first pass pairs the two backslashes, while the second takes the first of them for a hex
      digit, reads the escape as a NUL, and then reads the closing quote as escaped. */
  lemma OutOfStep()
    ensures var s := [BACKSLASH, LOWER_U, ZERO, ZERO, ZERO, BACKSLASH, BACKSLASH, QUOTE];
            ScanEnd(s, 0) == Some(7) && Decode(s, 0, 7) == Some([NUL, QUOTE])
  {
    var s := [BACKSLASH, LOWER_U, ZERO, ZERO, ZERO, BACKSLASH, BACKSLASH, QUOTE];
    assert ScanEnd(s, 2) == ScanEnd(s, 3) == ScanEnd(s, 4) == ScanEnd(s, 5) == ScanEnd(s, 7);
    assert !FourHex(s, 2);
    assert TokenAt(s, 0, 7) == Token([NUL], 6);
    assert TokenAt(s, 6, 7) == Token([QUOTE], 2);
    assert Decode(s, 8, 7) == Some([]);
    assert Decode(s, 6, 7) == Some([QUOTE] + []) && [QUOTE] + [] == [QUOTE];
    assert Decode(s, 0, 7) == Prepend([NUL], Decode(s, 6, 7)) && [NUL] + [QUOTE] == [NUL, QUOTE];
  }

  // ---- The parser's method ---------------------------------------------------------------

  datatype Scan = NoScan | Scan(end: nat, skipped: nat)

  /** The counting loop of `parse_string`. */
  method ScanString(s: Text, start: nat) returns (r: Scan)
    requires start <= |s|
    ensures ScanEnd(s, start).None? ==> r == NoScan
    ensures ScanEnd(s, start).Some? ==>
              r == Scan(ScanEnd(s, start).value, Pairs(s, start, ScanEnd(s, start).value))
  {
    var end, skipped := start, 0;
    ghost var goal := ScanEnd(s, start);
    while end < |s| && s[end] != QUOTE
      invariant start <= end
      invariant ScanEnd(s, end) == goal
      invariant goal.Some? ==> skipped + Pairs(s, end, goal.value) == Pairs(s, start, goal.value)
      decreases |s| - end
    {
      if s[end] == BACKSLASH {
        if end + 1 >= |s| { return NoScan; }
        skipped := skipped + 1;
        end := end + 1;
      }
      end := end + 1;
    }
    if end >= |s| || s[end] != QUOTE { return NoScan; }
    return Scan(end, skipped);
  }

  /** The literal whose opening quote stands at `offset`: its C-string value, and the offset
      after its closing quote. */
  function StringAt(s: Text, offset: nat): (r: Option<(Text, nat)>)
    requires offset < |s|
    ensures r.Some? ==> offset + 2 <= r.value.1 <= |s| && NulFree(r.value.0)
  {
    if s[offset] != QUOTE || ScanEnd(s, offset + 1).None? then None
    else
      var end := ScanEnd(s, offset + 1).value;
      var d := Decode(s, offset + 1, end);
      if d.None? then None else Some((CString(d.value), end + 1))
  }

  /** One round of the decoding loop. */
  method DecodeToken(s: Text, i: nat, end: nat, output: array<byte>, n: nat) returns (length: nat, next: nat)
    requires i < end < |s|
    requires n < output.Length
    requires TokenAt(s, i, end).Token? ==> n + |TokenAt(s, i, end).emitted| <= output.Length
    modifies output
    ensures TokenAt(s, i, end).Bad? ==> length == 0
    ensures TokenAt(s, i, end).Token? ==>
              var t := TokenAt(s, i, end);
              length == t.length && next == n + |t.emitted|
              && output[..next] == old(output[..n]) + t.emitted
  {
    if s[i] != BACKSLASH {
      output[n] := s[i];
      return 1, n + 1;
    }
    if s[i + 1] == LOWER_U {
      length, next := TranscodeLiteral(s, i, end, output, n);
      return;
    }
    var e := SimpleEscape(s[i + 1]);
    if e.None? { return 0, n; }
    output[n] := e.value;
    return 2, n + 1;
  }

  /** The decoding loop of `parse_string`, writing into an output block of the size that the
      counting loop asked for: every write is inside it, whether or not decoding succeeds. */
  method DecodeInto(s: Text, start: nat, end: nat, skipped: nat, output: array<byte>)
    returns (ok: bool, written: nat)
    requires ScanEnd(s, start) == Some(end) && skipped == Pairs(s, start, end)
    requires output.Length == (end - (start - 1)) - skipped + 1
    modifies output
    ensures ok <==> Decode(s, start, end).Some?
    ensures ok ==> written < output.Length && output[..written] == Decode(s, start, end).value
                   && output[written] == NUL
  {
    hide TokenAt, ScanEnd, Pairs;
    var i, n := start, 0;
    ghost var p := start;
    PrependTwice([], [], Decode(s, start, end));
    assert output[..0] == [];
    while i < end
      invariant start <= i
      invariant 0 <= n && n + 2 <= output.Length
      invariant i <= end ==> Straddles(s, i, p, end) && n + Reserve(s, i, p, end) + 2 <= output.Length
      invariant Decode(s, start, end) == Prepend(output[..n], Decode(s, i, end))
      decreases end - i
    {
      ghost var t := TokenAt(s, i, end);
      ghost var q := p;
      if t.Token? {
        q := StepFits(s, i, p, end);
        PrependTwice(output[..n], t.emitted, Decode(s, i + t.length, end));
      }
      var length, next := DecodeToken(s, i, end, output, n);
      if length == 0 { return false, 0; }
      i, n, p := i + length, next, q;
    }
    output[n] := NUL;
    ok, written := true, n;
  }

  method ParseString(s: Text, offset: nat) returns (r: Option<(Text, nat)>)
    requires offset < |s|
    ensures r == StringAt(s, offset)
  {
    if s[offset] != QUOTE { return None; }
    var scan := ScanString(s, offset + 1);
    if scan.NoScan? { return None; }
    var output := new byte[scan.end - offset - scan.skipped + 1];
    var ok, written := DecodeInto(s, offset + 1, scan.end, scan.skipped, output);
    if !ok { return None; }
    return Some((CString(output[..written]), scan.end + 1));
  }
}
