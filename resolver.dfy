/**
 * Ticker resolution (`get_ticker_info`): among the assets the search
 * endpoint returned, keep those whose ticker is exactly the query, or the
 * query written as a cashtag (`$` in front), ignoring case and surrounding
 * whitespace; then answer the kept asset of smallest rank, the first one
 * seen when several share that rank. No partial or fuzzy match is ever
 * accepted.
 */
module Resolver {
  import opened Wrappers
  import opened Tokens

  /** Python's `str.lower()` on one character; letters outside A-Z are kept. */
  function LowerChar(c: char): char {
    if 'A' <= c <= 'Z' then (c as int + 32) as char else c
  }

  /** `str.lower()`, character by character: it never changes the length. */
  function Lower(s: string): (r: string)
    ensures |r| == |s|
  {
    seq(|s|, i requires 0 <= i < |s| => LowerChar(s[i]))
  }

  /** The characters Python's `str.isspace()` accepts, by code point. */
  predicate IsSpace(c: char) {
    var n := c as int;
    n == 0x20 || 0x09 <= n <= 0x0D || 0x1C <= n <= 0x1F || n == 0x85 || n == 0xA0
    || n == 0x1680 || 0x2000 <= n <= 0x200A || n == 0x2028 || n == 0x2029
    || n == 0x202F || n == 0x205F || n == 0x3000
  }

  function TrimStart(s: string): string {
    if |s| > 0 && IsSpace(s[0]) then TrimStart(s[1..]) else s
  }

  function TrimEnd(s: string): string {
    if |s| > 0 && IsSpace(s[|s| - 1]) then TrimEnd(s[..|s| - 1]) else s
  }

  /** `str.strip()`: drop whitespace at both ends. */
  function Strip(s: string): string {
    TrimEnd(TrimStart(s))
  }

  /** A candidate's ticker as the resolver compares it: `ticker.lower().strip()`. */
  function Normalize(ticker: string): string {
    Strip(Lower(ticker))
  }

  /** The exact-match test of the filtering loop, plain or cashtag. */
  predicate Matches(query: string, ticker: string) {
    Lower(query) == Normalize(ticker) || "$" + Lower(query) == Normalize(ticker)
  }

  lemma {:induction false} TrimStartShape(s: string)
    ensures var r := TrimStart(s);
            && |r| <= |s| && r == s[|s| - |r|..] && (|r| > 0 ==> !IsSpace(r[0]))
            && forall k :: 0 <= k < |s| - |r| ==> IsSpace(s[k])
  {
    if |s| > 0 && IsSpace(s[0]) {
      TrimStartShape(s[1..]);
    }
  }

  lemma {:induction false} TrimEndShape(s: string)
    ensures var r := TrimEnd(s);
            && |r| <= |s| && r == s[..|r|] && (|r| > 0 ==> !IsSpace(r[|r| - 1]))
            && forall k :: |r| <= k < |s| ==> IsSpace(s[k])
  {
    if |s| > 0 && IsSpace(s[|s| - 1]) {
      TrimEndShape(s[..|s| - 1]);
    }
  }

  /**
   * What `strip()` returns: the piece `s[start..start + |Strip(s)|]` of its
   * input, which neither starts nor ends with whitespace, while everything
   * cut off on either side is whitespace.
   */
  lemma StripShape(s: string) returns (start: nat)
    ensures var r := Strip(s);
            && start + |r| <= |s| && r == s[start..start + |r|]
            && (|r| > 0 ==> !IsSpace(r[0]) && !IsSpace(r[|r| - 1]))
            && (forall k :: 0 <= k < start ==> IsSpace(s[k]))
            && (forall k :: start + |r| <= k < |s| ==> IsSpace(s[k]))
  {
    var t := TrimStart(s);
    var r := TrimEnd(t);
    TrimStartShape(s);
    TrimEndShape(t);
    start := |s| - |t|;
    assert r == s[start..start + |r|];
    assert forall k :: start + |r| <= k < |s| ==> s[k] == t[k - start];
  }

  /** `strip()` leaves alone a string that neither starts nor ends with whitespace. */
  lemma StripUntrimmed(s: string)
    requires |s| > 0 ==> !IsSpace(s[0]) && !IsSpace(s[|s| - 1])
    ensures Strip(s) == s
  {
  }

  /**
   * A ticker matches the query it spells, in any letter case, and the same
   * query written as a cashtag; the query is lower-cased before the test,
   * so its own letter case does not matter either.
   */
  lemma MatchesExactAndCashtag(query: string)
    requires |query| > 0 ==> !IsSpace(query[0]) && !IsSpace(query[|query| - 1])
    ensures Matches(query, query) && Matches(query, "$" + query)
    ensures forall ticker :: Matches(query, ticker) <==> Matches(Lower(query), ticker)
  {
    var q := Lower(query);
    StripUntrimmed(q);
    assert Lower(q) == q;
    assert Lower("$" + query) == "$" + q;
    StripUntrimmed("$" + q);
  }

  /** Lower-casing a string that has no upper-case ASCII letter changes nothing. */
  lemma LowerUnchanged(s: string)
    requires forall i :: 0 <= i < |s| ==> !('A' <= s[i] <= 'Z')
    ensures Lower(s) == s
  {
  }

  /**
   * For every query, a matching ticker, once normalized, is exactly as long
   * as the query or one character longer (the cashtag): no proper prefix
   * and no longer extension of the query ever matches.
   */
  lemma MatchLength(query: string, ticker: string)
    requires Matches(query, ticker)
    ensures |Normalize(ticker)| == |query| || |Normalize(ticker)| == |query| + 1
  {
  }

  /** Examples for the query "abc": an extension, a doubled cashtag and an inner space. */
  lemma NoPartialMatch()
    ensures !Matches("abc", "abcd") && !Matches("abc", "$$abc") && !Matches("abc", "a bc")
  {
  }

  /** The candidates the filtering loop appends to `tokens`, in response order. */
  function Kept(query: string, candidates: seq<TokenInfo>): (tokens: seq<TokenInfo>)
    ensures forall t :: t in tokens ==> t in candidates && Matches(query, t.ticker)
    ensures forall i :: 0 <= i < |candidates| && Matches(query, candidates[i].ticker) ==> candidates[i] in tokens
  {
    if |candidates| == 0 then []
    else
      var last := candidates[|candidates| - 1];
      Kept(query, candidates[..|candidates| - 1]) + (if Matches(query, last.ticker) then [last] else [])
  }

  /**
   * Python's `min(tokens, key=rank)`: scanning left to right, a later token
   * replaces the current minimum only when its rank is strictly smaller.
   */
  function MinByRank(tokens: seq<TokenInfo>): (m: TokenInfo)
    requires |tokens| > 0
    ensures m in tokens
    ensures forall t :: t in tokens ==> m.rank <= t.rank
  {
    if |tokens| == 1 then tokens[0]
    else
      var init := tokens[..|tokens| - 1];
      var last := tokens[|tokens| - 1];
      assert tokens == init + [last];
      var m := MinByRank(init);
      if last.rank < m.rank then last else m
  }

  /** What `get_ticker_info` answers for a search response. */
  function Resolve(query: string, candidates: seq<TokenInfo>): Option<TokenInfo> {
    var tokens := Kept(query, candidates);
    if |tokens| > 0 then Some(MinByRank(tokens)) else None
  }

  /**
   * Candidate `k` matches, has the smallest rank of all matching
   * candidates, and every matching candidate before it has a larger rank.
   */
  ghost predicate IsEarliestBest(query: string, candidates: seq<TokenInfo>, k: int) {
    && 0 <= k < |candidates|
    && Matches(query, candidates[k].ticker)
    && (forall j :: 0 <= j < |candidates| && Matches(query, candidates[j].ticker) ==> candidates[k].rank <= candidates[j].rank)
    && (forall j :: 0 <= j < k && Matches(query, candidates[j].ticker) ==> candidates[k].rank < candidates[j].rank)
  }

  /** Resolution over a response, in terms of resolution over all but its last candidate. */
  lemma {:induction false} ResolveStep(query: string, candidates: seq<TokenInfo>)
    requires |candidates| > 0
    ensures var last := candidates[|candidates| - 1];
            var prev := Resolve(query, candidates[..|candidates| - 1]);
            Resolve(query, candidates)
              == if !Matches(query, last.ticker) then prev
                 else if prev.None? || last.rank < prev.value.rank then Some(last)
                 else prev
  {
    var init := candidates[..|candidates| - 1];
    var last := candidates[|candidates| - 1];
    var before := Kept(query, init);
    if Matches(query, last.ticker) {
      var tokens := before + [last];
      assert Kept(query, candidates) == tokens;
      if |before| > 0 {
        assert tokens[..|tokens| - 1] == before;
        assert MinByRank(tokens) == if last.rank < MinByRank(before).rank then last else MinByRank(before);
      } else {
        assert tokens == [last];
      }
    } else {
      assert Kept(query, candidates) == before;
    }
  }

  /** An earliest best match stays one when a candidate that does not beat it is appended. */
  lemma EarliestBestKept(query: string, candidates: seq<TokenInfo>, k: int)
    requires |candidates| > 0
    requires IsEarliestBest(query, candidates[..|candidates| - 1], k)
    requires var last := candidates[|candidates| - 1];
             !Matches(query, last.ticker) || candidates[k].rank <= last.rank
    ensures IsEarliestBest(query, candidates, k)
  {
    var n := |candidates| - 1;
    assert forall i :: 0 <= i < n ==> candidates[i] == candidates[..n][i];
  }

  /** An appended match becomes the earliest best match when it beats every earlier match. */
  lemma EarliestBestLast(query: string, candidates: seq<TokenInfo>)
    requires |candidates| > 0
    requires var n := |candidates| - 1;
             && Matches(query, candidates[n].ticker)
             && forall j :: 0 <= j < n && Matches(query, candidates[j].ticker) ==> candidates[n].rank < candidates[j].rank
    ensures IsEarliestBest(query, candidates, |candidates| - 1)
  {
  }

  /** No answer exactly when no candidate matches. */
  lemma ResolveNoneIffNoMatch(query: string, candidates: seq<TokenInfo>)
    ensures Resolve(query, candidates).None?
        <==> forall i :: 0 <= i < |candidates| ==> !Matches(query, candidates[i].ticker)
  {
  }

  /** The position of the resolver's answer among the candidates. */
  lemma {:induction false} ResolvePosition(query: string, candidates: seq<TokenInfo>) returns (k: int)
    requires Resolve(query, candidates).Some?
    ensures IsEarliestBest(query, candidates, k) && candidates[k] == Resolve(query, candidates).value
  {
    var n := |candidates| - 1;
    var init := candidates[..n];
    var last := candidates[n];
    ResolveStep(query, candidates);
    var prev := Resolve(query, init);
    if prev.Some? {
      k := ResolvePosition(query, init);
      if Matches(query, last.ticker) && last.rank < prev.value.rank {
        assert forall j :: 0 <= j < n ==> candidates[j] == init[j];
        EarliestBestLast(query, candidates);
        k := n;
      } else {
        EarliestBestKept(query, candidates, k);
      }
    } else {
      ResolveNoneIffNoMatch(query, init);
      assert forall j :: 0 <= j < n ==> candidates[j] == init[j];
      EarliestBestLast(query, candidates);
      k := n;
    }
  }

  /** Any answer is the earliest matching candidate of smallest rank. */
  lemma ResolveSomeIsEarliestBest(query: string, candidates: seq<TokenInfo>)
    ensures Resolve(query, candidates).Some? ==>
              exists k :: IsEarliestBest(query, candidates, k) && candidates[k] == Resolve(query, candidates).value
  {
    if Resolve(query, candidates).Some? {
      var k := ResolvePosition(query, candidates);
    }
  }

  /** At most one candidate is the earliest best match. */
  lemma EarliestBestUnique(query: string, candidates: seq<TokenInfo>, k1: int, k2: int)
    requires IsEarliestBest(query, candidates, k1) && IsEarliestBest(query, candidates, k2)
    ensures k1 == k2
  {
  }

  /**
   * The resolver's answer is fixed by the specification alone: if candidate
   * `k` is the earliest best match, the resolver answers exactly it.
   */
  lemma ResolveIsEarliestBest(query: string, candidates: seq<TokenInfo>, k: int)
    requires IsEarliestBest(query, candidates, k)
    ensures Resolve(query, candidates) == Some(candidates[k])
  {
    ResolveSomeIsEarliestBest(query, candidates);
    var k' :| IsEarliestBest(query, candidates, k') && candidates[k'] == Resolve(query, candidates).value;
    EarliestBestUnique(query, candidates, k, k');
  }

  /**
   * `get_ticker_info` after the search response is decoded: filter the
   * candidates by the exact-match test into `tokens`, then take the one of
   * smallest rank with Python's `min`.
   */
  method GetTickerInfo(ticker: string, tokenData: seq<TokenInfo>) returns (r: Option<TokenInfo>)
    ensures r == Resolve(ticker, tokenData)
    ensures r.None? <==> forall i :: 0 <= i < |tokenData| ==> !Matches(ticker, tokenData[i].ticker)
    ensures r.Some? ==> exists k :: IsEarliestBest(ticker, tokenData, k) && tokenData[k] == r.value
  {
    var tokens: seq<TokenInfo> := [];
    var i := 0;
    while i < |tokenData|
      invariant 0 <= i <= |tokenData|
      invariant tokens == Kept(ticker, tokenData[..i])
    {
      var token := tokenData[i];
      var normalized := Strip(Lower(token.ticker));
      if Lower(ticker) == normalized || "$" + Lower(ticker) == normalized {
        tokens := tokens + [token];
      }
      assert tokenData[..i + 1][..i] == tokenData[..i];
      i := i + 1;
    }
    assert tokenData[..i] == tokenData;
    if |tokens| > 0 {
      r := Some(MinByRank(tokens));
    } else {
      r := None;
    }
    ResolveNoneIffNoMatch(ticker, tokenData);
    ResolveSomeIsEarliestBest(ticker, tokenData);
  }

  /** The match tests behind the worked example below. */
  lemma ExampleMatches()
    ensures Matches("abc", "ABC") && Matches("abc", "$abc") && !Matches("abc", "xyz")
    ensures !Matches("abcd", "ABC") && !Matches("abcd", "$abc") && !Matches("abcd", "xyz")
  {
    assert Lower("ABC") == "abc";
    LowerUnchanged("abc");
    LowerUnchanged("abcd");
    LowerUnchanged("$abc");
    LowerUnchanged("xyz");
    StripUntrimmed("abc");
    StripUntrimmed("$abc");
    StripUntrimmed("xyz");
    assert Normalize("ABC") == "abc" && Normalize("$abc") == "$abc" && Normalize("xyz") == "xyz";
  }

  /**
   * The worked example of the resolver: for the query "abc", both "ABC"
   * (rank 5) and "$abc" (rank 2) match and "xyz" does not, so the cashtag
   * entry of rank 2 wins; the query "abcd" matches nothing.
   */
  method ResolverExample() returns (abc: Option<TokenInfo>, abcd: Option<TokenInfo>)
    ensures abc.Some? && abc.value.ticker == "$abc" && abc.value.rank == 2
    ensures abcd.None?
  {
    var t1 := new TokenInfo(1, "ABC", 5, 0, 1.0, 1.0, 1.0, 0.0, 0.0);
    var t2 := new TokenInfo(2, "$abc", 2, 0, 1.0, 1.0, 1.0, 0.0, 0.0);
    var t3 := new TokenInfo(3, "xyz", 1, 0, 1.0, 1.0, 1.0, 0.0, 0.0);
    var candidates := [t1, t2, t3];
    ExampleMatches();
    assert IsEarliestBest("abc", candidates, 1);
    ResolveIsEarliestBest("abc", candidates, 1);
    abc := GetTickerInfo("abc", candidates);
    abcd := GetTickerInfo("abcd", candidates);
  }
}
