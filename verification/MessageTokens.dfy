/**
  ClickHouse-compatible message tokens: the iterator yields precisely the
  maximal separator-free runs, and the windowed matcher agrees with it.
 */
module MessageTokens {
  import opened Base
  import opened EditDistance

  datatype CaseSensitivity = Sensitive | Insensitive

  predicate Alphanumeric(b: u8) { 48 <= b <= 57 || 65 <= b <= 90 || 97 <= b <= 122 }

  /** ASCII, and neither alphanumeric nor an underscore. */
  predicate Separator(b: u8) { b < 128 && !(Alphanumeric(b) || b == 95) }

  predicate SeparatorFree(m: Bytes, from: nat, to: nat)
    requires from <= to <= |m|
  {
    forall i :: from <= i < to ==> !Separator(m[i])
  }

  /** `m[start..end]` is a maximal nonempty run without separators. */
  predicate IsToken(m: Bytes, start: nat, end: nat)
  {
    && start < end <= |m| && SeparatorFree(m, start, end)
    && (start == 0 || Separator(m[start - 1])) && (end == |m| || Separator(m[end]))
  }

  // ----- The iterator

  function SkipSeparators(m: Bytes, offset: nat): (r: nat)
    requires offset <= |m|
    ensures offset <= r <= |m|
    ensures forall i :: offset <= i < r ==> Separator(m[i])
    ensures r < |m| ==> !Separator(m[r])
    decreases |m| - offset
  {
    if offset < |m| && Separator(m[offset]) then SkipSeparators(m, offset + 1) else offset
  }

  function SkipToken(m: Bytes, offset: nat): (r: nat)
    requires offset <= |m|
    ensures offset <= r <= |m| && SeparatorFree(m, offset, r)
    ensures r < |m| ==> Separator(m[r])
    decreases |m| - offset
  {
    if offset < |m| && !Separator(m[offset]) then SkipToken(m, offset + 1) else offset
  }

  /** The spans of the tokens still to come. */
  function TokenSpans(m: Bytes, offset: nat): seq<(nat, nat)>
    requires offset <= |m|
    decreases |m| - offset
  {
    var start := SkipSeparators(m, offset);
    var end := SkipToken(m, start);
    if start == end then [] else [(start, end)] + TokenSpans(m, end)
  }

  class ClickhouseTokenIter {
    const message: Bytes
    var offset: nat

    ghost predicate Valid()
      reads this
    {
      offset <= |message|
    }

    ghost function Remaining(): seq<(nat, nat)>
      reads this
      requires Valid()
    {
      TokenSpans(message, offset)
    }

    constructor (message: Bytes)
      ensures Valid() && this.message == message && Remaining() == TokenSpans(message, 0)
    {
      this.message, offset := message, 0;
    }

    method Next() returns (token: Option<Bytes>)
      requires Valid()
      modifies this
      ensures Valid() && (token.None? <==> old(Remaining()) == [])
      ensures token.Some? ==>
                var (start, end) := old(Remaining())[0];
                start < end <= |message| && token.value == message[start..end] && Remaining() == old(Remaining())[1..]
    {
      ghost var start' := SkipSeparators(message, offset);
      while offset < |message| && Separator(message[offset])
        invariant offset <= |message| && SkipSeparators(message, offset) == start'
      {
        offset := offset + 1;
      }
      var start := offset;
      ghost var end' := SkipToken(message, start);
      while offset < |message| && !Separator(message[offset])
        invariant start <= offset <= |message| && SkipToken(message, offset) == end'
      {
        offset := offset + 1;
      }
      token := if start < offset then Some(message[start..offset]) else None;
    }
  }

  /** Tokens of `m` in order, none before `offset`. */
  ghost predicate InOrder(m: Bytes, offset: nat, spans: seq<(nat, nat)>)
  {
    && (forall i :: 0 <= i < |spans| ==> IsToken(m, spans[i].0, spans[i].1) && offset <= spans[i].0)
    && (forall i, j :: 0 <= i < j < |spans| ==> spans[i].1 < spans[j].0)
  }

  lemma {:induction false} SpansAreTokens(m: Bytes, offset: nat)
    requires offset <= |m| && (offset == 0 || offset == |m| || Separator(m[offset]))
    ensures InOrder(m, offset, TokenSpans(m, offset))
    decreases |m| - offset
  {
    hide Separator;
    var start := SkipSeparators(m, offset);
    var end := SkipToken(m, start);
    if start < end {
      SpansAreTokens(m, end);
      var tail := TokenSpans(m, end);
      assert start > offset ==> Separator(m[start - 1]);
      assert IsToken(m, start, end);
      NotAtSeparator(m, end, tail);
      assert TokenSpans(m, offset) == [(start, end)] + tail;
    }
  }

  lemma {:induction false} NotAtSeparator(m: Bytes, end: nat, spans: seq<(nat, nat)>)
    requires InOrder(m, end, spans) && (end == |m| || (end < |m| && Separator(m[end])))
    ensures forall i :: 0 <= i < |spans| ==> end < spans[i].0
  {
    hide Separator;
    forall i | 0 <= i < |spans| ensures end < spans[i].0 {
      assert IsToken(m, spans[i].0, spans[i].1);
      assert !Separator(m[spans[i].0]);
    }
  }

  lemma {:induction false} NoneInside(m: Bytes, from: nat, to: nat, i: nat)
    requires from <= to <= |m| && SeparatorFree(m, from, to)
    ensures from <= i < to ==> !Separator(m[i])
  {
  }

  /** Every token from `offset` on is listed. */
  lemma {:induction false} TokensAreListed(m: Bytes, offset: nat, s: nat, e: nat)
    requires offset <= s && IsToken(m, s, e)
    ensures (s, e) in TokenSpans(m, offset)
    decreases |m| - offset
  {
    hide Separator;
    var start := SkipSeparators(m, offset);
    var end := SkipToken(m, start);
    assert !Separator(m[s]);
    if s < end {
      if s > 0 { NoneInside(m, start, end, s - 1); }
      NoneInside(m, start, end, e);
      NoneInside(m, s, e, end);
    } else {
      assert start < |m|;
      TokensAreListed(m, end, s, e);
    }
  }

  /** The iterator yields the maximal separator-free runs, all of them, left to right. */
  lemma {:induction false} TokenSpansExact(m: Bytes)
    ensures forall s: nat, e: nat :: (s, e) in TokenSpans(m, 0) <==> IsToken(m, s, e)
    ensures InOrder(m, 0, TokenSpans(m, 0))
  {
    hide TokenSpans;
    SpansAreTokens(m, 0);
    forall s: nat, e: nat ensures (s, e) in TokenSpans(m, 0) <==> IsToken(m, s, e) {
      if IsToken(m, s, e) { TokensAreListed(m, 0, s, e); }
    }
  }

  // ----- The windowed matcher

  predicate SameText(a: Bytes, b: Bytes, mode: CaseSensitivity)
  {
    match mode
    case Sensitive => a == b
    case Insensitive => |a| == |b| && forall i :: 0 <= i < |a| ==> SameFolded(a[i], b[i])
  }

  predicate WindowMatches(m: Bytes, expected: Bytes, start: nat, mode: CaseSensitivity)
    requires start + |expected| <= |m|
  {
    var end := start + |expected|;
    && SameText(m[start..end], expected, mode)
    && (start == 0 || Separator(m[start - 1])) && (end == |m| || Separator(m[end]))
  }

  /** Some token the iterator yields equals `expected`. */
  ghost predicate YieldsToken(m: Bytes, expected: Bytes, mode: CaseSensitivity)
  {
    exists s, e :: (s, e) in TokenSpans(m, 0) && s <= e <= |m| && SameText(m[s..e], expected, mode)
  }

  lemma {:induction false} MatchingWindowIsToken(m: Bytes, expected: Bytes, start: nat, mode: CaseSensitivity)
    requires start + |expected| <= |m| && expected != [] && SeparatorFree(expected, 0, |expected|)
    requires WindowMatches(m, expected, start, mode)
    ensures IsToken(m, start, start + |expected|)
  {
    forall i | start <= i < start + |expected| ensures !Separator(m[i]) {
      assert m[start..start + |expected|][i - start] == m[i];
      assert !Separator(expected[i - start]);
    }
  }

  lemma {:induction false} MatchingTokenIsClean(m: Bytes, expected: Bytes, s: nat, e: nat, mode: CaseSensitivity)
    requires IsToken(m, s, e) && SameText(m[s..e], expected, mode)
    ensures e == s + |expected| && expected != [] && SeparatorFree(expected, 0, |expected|)
  {
    forall i | 0 <= i < |expected| ensures !Separator(expected[i]) {
      assert m[s..e][i] == m[s + i] && !Separator(m[s + i]);
    }
  }

  method MessageHasToken(m: Bytes, expected: Bytes, mode: CaseSensitivity) returns (found: bool)
    ensures found <==> YieldsToken(m, expected, mode)
  {
    hide TokenSpans, Separator, SameText;
    TokenSpansExact(m);
    forall s: nat, e: nat | (s, e) in TokenSpans(m, 0) && s <= e <= |m| && SameText(m[s..e], expected, mode)
      ensures e == s + |expected| && expected != [] && SeparatorFree(expected, 0, |expected|)
    {
      MatchingTokenIsClean(m, expected, s, e, mode);
    }
    if expected == [] || exists i | 0 <= i < |expected| :: Separator(expected[i]) {
      return false;
    }
    if |expected| > |m| {
      return false;
    }
    var start := 0;
    while start + |expected| <= |m|
      invariant 0 <= start <= |m| - |expected| + 1
      invariant forall i :: 0 <= i < start ==> !WindowMatches(m, expected, i, mode)
    {
      if WindowMatches(m, expected, start, mode) {
        MatchingWindowIsToken(m, expected, start, mode);
        assert (start, start + |expected|) in TokenSpans(m, 0);
        return true;
      }
      start := start + 1;
    }
    forall s: nat, e: nat | (s, e) in TokenSpans(m, 0) && s <= e <= |m|
      ensures !SameText(m[s..e], expected, mode)
    {
      assert IsToken(m, s, e);
      if e == s + |expected| { assert !WindowMatches(m, expected, s, mode); }
    }
    found := false;
  }

  /** A nonempty value is matched by any token within the distance. */
  method MessageHasFuzzyToken(m: Bytes, value: Bytes, maxDistance: nat) returns (found: bool)
    ensures found <==>
            value != [] && exists s, e :: (s, e) in TokenSpans(m, 0) && s <= e <= |m| &&
                                          Distance(m[s..e], e - s, value, |value|) <= maxDistance
  {
    hide TokenSpans, Distance;
    if value == [] {
      return false;
    }
    var tokens := new ClickhouseTokenIter(m);
    ghost var spans := TokenSpans(m, 0);
    ghost var k := 0;
    found := false;
    var token := tokens.Next();
    assert spans[0..] == spans;
    while token.Some?
      invariant tokens.Valid() && fresh(tokens) && tokens.message == m && 0 <= k <= |spans|
      invariant token.None? ==> k == |spans|
      invariant token.Some? ==> k < |spans| && spans[k].0 < spans[k].1 <= |m|
      invariant token.Some? ==> token.value == m[spans[k].0..spans[k].1] && tokens.Remaining() == spans[k + 1..]
      invariant found <==>
        exists i :: 0 <= i < k && spans[i].0 <= spans[i].1 <= |m| &&
          Distance(m[spans[i].0..spans[i].1], spans[i].1 - spans[i].0, value, |value|) <= maxDistance
      decreases |spans| - k
    {
      var near := BoundedLevenshtein(token.value, value, maxDistance);
      found := found || near;
      k := k + 1;
      assert spans[k..] != [] ==> spans[k..][0] == spans[k] && spans[k..][1..] == spans[k + 1..];
      token := tokens.Next();
    }
  }
}
