/** The one piece of logic in the HTTP layer that shapes the controller's
    input: the token cleanup of the run endpoint (src/platform/app.py:40-42). */
module RunRequest {
  import opened Common
  import opened Dispatch

  /** `str.isspace()` on the ASCII range: space, tab through carriage return,
      and the four separator controls. */
  predicate IsSpace(ch: char) {
    ch == ' ' || ('\t' <= ch <= '\r') || ('\U{1C}' <= ch <= '\U{1F}')
  }

  function TrimStart(s: string): (r: string)
    ensures |r| <= |s| && r == s[|s| - |r|..]
    ensures r == [] || !IsSpace(r[0])
    ensures forall i :: 0 <= i < |s| - |r| ==> IsSpace(s[i])
  {
    if s == [] || !IsSpace(s[0]) then s
    else
      var r := TrimStart(s[1..]);
      assert forall i :: 1 <= i < |s| ==> s[i] == s[1..][i - 1];
      r
  }

  function TrimEnd(s: string): (r: string)
    ensures |r| <= |s| && r == s[..|r|]
    ensures r == [] || !IsSpace(r[|r| - 1])
    ensures forall i :: |r| <= i < |s| ==> IsSpace(s[i])
  {
    if s == [] || !IsSpace(s[|s| - 1]) then s
    else TrimEnd(s[..|s| - 1])
  }

  /** `str.strip()`: the text between the leading and the trailing whitespace. */
  function Strip(s: string): (r: string)
    ensures r == [] || (!IsSpace(r[0]) && !IsSpace(r[|r| - 1]))
    ensures exists i, j ::
      && 0 <= i <= j <= |s| && r == s[i..j]
      && (forall k :: 0 <= k < i ==> IsSpace(s[k]))
      && (forall k :: j <= k < |s| ==> IsSpace(s[k]))
  {
    var front := TrimStart(s);
    var r := TrimEnd(front);
    var i := |s| - |front|;
    assert r == s[i..i + |r|];
    r
  }

  /** Stripping twice strips nothing more. */
  lemma StripIdempotent(s: string)
    ensures Strip(Strip(s)) == Strip(s)
  {
  }

  /** `f` applied to every element, in order. */
  function Map<A, B>(f: A -> B, xs: seq<A>): (r: seq<B>)
    ensures |r| == |xs|
    ensures forall i :: 0 <= i < |xs| ==> r[i] == f(xs[i])
  {
    seq(|xs|, i requires 0 <= i < |xs| => f(xs[i]))
  }

  /** Mapping a concatenation maps each part. */
  lemma MapAppend<A, B>(f: A -> B, a: seq<A>, b: seq<A>)
    ensures Map(f, a + b) == Map(f, a) + Map(f, b)
  {
    var l, r := Map(f, a + b), Map(f, a) + Map(f, b);
    forall i | 0 <= i < |l| ensures l[i] == r[i] {
      if i < |a| {
        assert (a + b)[i] == a[i];
      } else {
        assert (a + b)[i] == b[i - |a|];
      }
    }
  }

  /** Every token stripped, position by position. */
  function StripEach(xs: seq<string>): (r: seq<string>)
    ensures |r| == |xs|
    ensures forall i :: 0 <= i < |xs| ==> r[i] == Strip(xs[i])
  {
    Map(Strip, xs)
  }

  /** `[t.strip() for t in tokens if t.strip()]`. */
  function StripAll(xs: seq<string>): (r: seq<string>)
    ensures NoBlank(r) && |r| <= |xs|
    ensures forall i :: 0 <= i < |r| ==> Strip(r[i]) == r[i]
    ensures forall t :: t != "" ==> multiset(r)[t] == multiset(StripEach(xs))[t]
  {
    StrippedTokensAreStripped(xs);
    DropBlank(StripEach(xs))
  }

  /** The cleanup keeps the request's order: a concatenation is cleaned part
      by part, and one token is kept, stripped, exactly when it is not blank. */
  lemma StripAllKeepsOrder(a: seq<string>, b: seq<string>)
    ensures StripAll(a + b) == StripAll(a) + StripAll(b)
    ensures forall t :: StripAll([t]) == if Strip(t) == "" then [] else [Strip(t)]
  {
    MapAppend(Strip, a, b);
    DropBlankKeepsOrder(StripEach(a), StripEach(b));
    forall t ensures StripAll([t]) == if Strip(t) == "" then [] else [Strip(t)] {
      StripOne(t);
    }
  }

  lemma StripOne(t: string)
    ensures StripAll([t]) == if Strip(t) == "" then [] else [Strip(t)]
  {
    assert StripEach([t]) == [Strip(t)];
    DropBlankKeepsOrder([], [Strip(t)]);
  }

  /** Every token kept by the cleanup is already stripped. */
  lemma StrippedTokensAreStripped(xs: seq<string>)
    ensures forall i :: 0 <= i < |DropBlank(StripEach(xs))| ==>
      Strip(DropBlank(StripEach(xs))[i]) == DropBlank(StripEach(xs))[i]
  {
    var stripped := StripEach(xs);
    var r := DropBlank(stripped);
    forall i | 0 <= i < |r| ensures Strip(r[i]) == r[i] {
      KeptFromInput(stripped, i);
      var k :| 0 <= k < |stripped| && stripped[k] == r[i];
      StripIdempotent(xs[k]);
    }
  }

  /** Whatever `DropBlank` keeps comes from its input. */
  lemma KeptFromInput(xs: seq<string>, i: nat)
    requires i < |DropBlank(xs)|
    ensures DropBlank(xs)[i] in xs
  {
    var r := DropBlank(xs);
    assert r[i] in multiset(r);
  }

  /** `if tokens: tokens = [...]`: `None` and `[]` pass through untouched. */
  function TrimTokens(tokens: Option<seq<string>>): (r: Option<seq<string>>)
    ensures tokens.None? || tokens == Some([]) ==> r == tokens
    ensures tokens.Some? && tokens.value != [] ==>
      && r.Some? && NoBlank(r.value)
      && (forall i :: 0 <= i < |r.value| ==> Strip(r.value[i]) == r.value[i])
      && (forall t :: t != "" ==> multiset(r.value)[t] == multiset(StripEach(tokens.value))[t])
      && r.value == StripAll(tokens.value)
  {
    if tokens.Some? && tokens.value != [] then Some(StripAll(tokens.value)) else tokens
  }

  /** Through the HTTP layer a list of blank tokens becomes `[]`, so the
      strategy agent falls back to the configured tokens, unlike the same list
      passed to the controller directly (`BlankListDoesNotFallBack`). */
  lemma BlankRequestFallsBack(xs: seq<string>, monitored: seq<string>)
    requires forall i :: 0 <= i < |xs| ==> Strip(xs[i]) == ""
    ensures ResolveTokens(TrimTokens(Some(xs)), monitored) == DropBlank(monitored)
  {
    if xs != [] {
      var stripped := StripEach(xs);
      assert DropBlank(stripped) == [];
    }
  }

  /** After the cleanup the controller drops nothing: a non-empty cleaned list
      is evaluated exactly as sent. */
  lemma CleanedTokensUsedAsSent(xs: seq<string>, monitored: seq<string>)
    requires TrimTokens(Some(xs)).value != []
    ensures ResolveTokens(TrimTokens(Some(xs)), monitored) == TrimTokens(Some(xs)).value
  {
  }
}
