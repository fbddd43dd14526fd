/** A comparison as a link carries it: a comma-separated list of tickers and a timeframe. */
module Compare {
  import opened Wrappers
  import opened Numerals
  import opened Sequences
  import Csv

  const MAX_SYMBOLS := 6

  /** `s.split(",")`. */
  function SplitOnComma(s: string): seq<string>
    decreases |s|
  {
    var k := IndexOf(',', s);
    if k == |s| then [s] else [s[..k]] + SplitOnComma(s[k + 1..])
  }

  /** Trimmed, in capitals, blanks dropped. */
  function Normalise(upper: string -> string, parts: seq<string>): seq<string> {
    if parts == [] then [] else
      var n := |parts| - 1;
      var ticker := upper(Trim(parts[n]));
      Normalise(upper, parts[..n]) + if ticker == "" then [] else [ticker]
  }

  /** `Array.from(new Set(s))`: the first occurrence of each entry, in order. */
  function Distinct(s: seq<string>): seq<string> {
    if s == [] then [] else
      var n := |s| - 1;
      Distinct(s[..n]) + if s[n] in s[..n] then [] else [s[n]]
  }

  function ParseCompareTickers(upper: string -> string, raw: Option<string>): seq<string> {
    if raw.None? || raw.value == "" then [] else
      var tickers := Distinct(Normalise(upper, SplitOnComma(raw.value)));
      if |tickers| > MAX_SYMBOLS then tickers[..MAX_SYMBOLS] else tickers
  }

  datatype Timeframe = OneMonth | ThreeMonths | SixMonths | OneYear | FiveYears

  function TimeframeText(t: Timeframe): string {
    match t
    case OneMonth => "1M"
    case ThreeMonths => "3M"
    case SixMonths => "6M"
    case OneYear => "1Y"
    case FiveYears => "5Y"
  }

  function ParseCompareTimeframe(raw: Option<string>): Timeframe {
    if raw == Some("1M") then OneMonth
    else if raw == Some("3M") then ThreeMonths
    else if raw == Some("6M") then SixMonths
    else if raw == Some("5Y") then FiveYears
    else OneYear
  }

  /** The query parameters of a comparison, decoded. */
  datatype SearchParams = SearchParams(tickers: Option<string>, symbols: Option<string>, tf: Option<string>)

  datatype Comparison = Comparison(tickers: seq<string>, timeframe: Timeframe)

  function ParseCompareSearchParams(upper: string -> string, params: SearchParams): Comparison {
    var raw := if params.tickers.Some? then params.tickers else params.symbols;
    Comparison(ParseCompareTickers(upper, raw), ParseCompareTimeframe(params.tf))
  }

  /** The list a link carries; an empty comparison carries none. */
  function TickersParam(tickers: seq<string>): Option<string> {
    if tickers == [] then None else Some(Csv.Join(tickers, ","))
  }

  /** The parameters `buildCompareHref` sets, under either name for the list. */
  function CompareParams(c: Comparison, symbolsAlias: bool): SearchParams {
    SearchParams(if symbolsAlias then None else TickersParam(c.tickers),
                 if symbolsAlias then TickersParam(c.tickers) else None, Some(TimeframeText(c.timeframe)))
  }

  // ---------- what a parsed list looks like ----------

  predicate Trimmed(s: string) {
    s == "" || (!IsSpace(s[0]) && !IsSpace(s[|s| - 1]))
  }

  /** What is used of `toUpperCase`. */
  ghost predicate IsUpperCase(upper: string -> string) {
    forall s :: UpperLaws(upper, s)
  }

  ghost predicate UpperLaws(upper: string -> string, s: string) {
    && upper(upper(s)) == upper(s)
    && (upper(s) == "" <==> s == "")
    && (Trimmed(s) ==> Trimmed(upper(s)))
    && (',' !in s ==> ',' !in upper(s))
  }

  predicate IsTicker(upper: string -> string, s: string) {
    s != "" && Trimmed(s) && upper(s) == s && ',' !in s
  }

  ghost predicate Canonical(upper: string -> string, tickers: seq<string>) {
    && |tickers| <= MAX_SYMBOLS
    && (forall t <- tickers :: IsTicker(upper, t))
    && AllDifferent(tickers)
  }

  ghost predicate AllDifferent(s: seq<string>) {
    forall i, j | 0 <= i < j < |s| :: s[i] != s[j]
  }

  lemma {:induction false} TrimEndTrims(s: string)
    ensures TrimEnd(s) == "" || !IsSpace(TrimEnd(s)[|TrimEnd(s)| - 1])
    ensures TrimEnd(s) <= s
    decreases |s|
  {
    if s != [] && IsSpace(s[|s| - 1]) {
      TrimEndTrims(s[..|s| - 1]);
    }
  }

  lemma {:induction false} TrimStartTrims(s: string)
    ensures TrimStart(s) == "" || !IsSpace(TrimStart(s)[0])
    ensures forall c <- TrimStart(s) :: c in s
    decreases |s|
  {
    if s != [] && IsSpace(s[0]) {
      TrimStartTrims(s[1..]);
    }
  }

  lemma TrimTrims(s: string)
    ensures Trimmed(Trim(s)) && forall c <- Trim(s) :: c in s
  {
    TrimStartTrims(s);
    TrimEndTrims(TrimStart(s));
  }

  lemma {:induction false} SplitHasNoComma(s: string)
    ensures forall part <- SplitOnComma(s) :: ',' !in part
    decreases |s|
  {
    var k := IndexOf(',', s);
    if k < |s| {
      SplitHasNoComma(s[k + 1..]);
    }
  }

  lemma {:induction false} NormaliseMakesTickers(upper: string -> string, parts: seq<string>)
    requires IsUpperCase(upper) && forall part <- parts :: ',' !in part
    ensures forall t <- Normalise(upper, parts) :: IsTicker(upper, t)
  {
    if parts != [] {
      var n := |parts| - 1;
      NormaliseMakesTickers(upper, parts[..n]);
      assert parts[n] in parts;
      TrimTrims(parts[n]);
      assert UpperLaws(upper, Trim(parts[n]));
    }
  }

  lemma {:induction false} DistinctMembers(s: seq<string>)
    ensures forall t :: t in Distinct(s) <==> t in s
    ensures AllDifferent(Distinct(s))
  {
    if s != [] {
      var n := |s| - 1;
      DistinctMembers(s[..n]);
      assert s == s[..n] + [s[n]];
    }
  }

  /** Whatever the address bar holds, the comparison is of at most six distinct tickers. */
  lemma ParsedIsCanonical(upper: string -> string, raw: Option<string>)
    requires IsUpperCase(upper)
    ensures Canonical(upper, ParseCompareTickers(upper, raw))
  {
    if raw.Some? && raw.value != "" {
      var parts := SplitOnComma(raw.value);
      SplitHasNoComma(raw.value);
      NormaliseMakesTickers(upper, parts);
      DistinctMembers(Normalise(upper, parts));
    }
  }

  // ---------- links read back ----------

  lemma {:induction false} SplitUndoesJoin(parts: seq<string>)
    requires parts != [] && forall part <- parts :: ',' !in part
    ensures SplitOnComma(Csv.Join(parts, ",")) == parts
    decreases |parts|
  {
    assert ',' !in parts[0];
    if |parts| > 1 {
      SplitUndoesJoin(parts[1..]);
      SplitFirst(parts[0], Csv.Join(parts[1..], ","));
    } else {
      assert Csv.Join(parts, ",") == parts[0];
      assert IndexOf(',', parts[0]) == |parts[0]|;
    }
  }

  lemma SplitFirst(part: string, rest: string)
    requires ',' !in part
    ensures SplitOnComma(part + "," + rest) == [part] + SplitOnComma(rest)
  {
    var text := part + "," + rest;
    assert part + "," + rest == part + ("," + rest);
    IndexOfAfter(',', part, "," + rest);
    assert text[..|part|] == part && text[|part| + 1..] == rest;
  }

  lemma {:induction false} NormaliseTickers(upper: string -> string, parts: seq<string>)
    requires forall part <- parts :: IsTicker(upper, part)
    ensures Normalise(upper, parts) == parts
  {
    if parts != [] {
      var n := |parts| - 1;
      assert parts[n] in parts;
      TrimNothing(parts[n]);
      NormaliseTickers(upper, parts[..n]);
      LastApart(parts);
    }
  }

  lemma {:induction false} DistinctAlready(s: seq<string>)
    requires AllDifferent(s)
    ensures Distinct(s) == s
  {
    if s != [] {
      DistinctAlready(s[..|s| - 1]);
      LastIsNew(s);
      LastApart(s);
    }
  }

  lemma LastIsNew(s: seq<string>)
    requires AllDifferent(s) && s != []
    ensures s[|s| - 1] !in s[..|s| - 1] && AllDifferent(s[..|s| - 1])
  {
  }

  lemma TickersReadBack(upper: string -> string, tickers: seq<string>)
    requires IsUpperCase(upper)
    ensures ParseCompareTickers(upper, TickersParam(tickers)) == tickers <==> Canonical(upper, tickers)
  {
    ParsedIsCanonical(upper, TickersParam(tickers));
    if Canonical(upper, tickers) && tickers != [] {
      forall t | t in tickers ensures ',' !in t {
        assert IsTicker(upper, t);
      }
      SplitUndoesJoin(tickers);
      JoinNotEmpty(upper, tickers);
      NormaliseTickers(upper, tickers);
      DistinctAlready(tickers);
    }
  }

  /** Under either parameter name a link reads back as the comparison it was built from
      exactly when that has at most six distinct tickers; the timeframe always does. */
  lemma LinkReadsBack(upper: string -> string, c: Comparison, symbolsAlias: bool)
    requires IsUpperCase(upper)
    ensures ParseCompareSearchParams(upper, CompareParams(c, symbolsAlias)) == c <==> Canonical(upper, c.tickers)
    ensures ParseCompareSearchParams(upper, CompareParams(c, symbolsAlias)).timeframe == c.timeframe
  {
    TickersReadBack(upper, c.tickers);
    TimeframeReadsBack(c.timeframe);
  }

  lemma TimeframeReadsBack(t: Timeframe)
    ensures ParseCompareTimeframe(Some(TimeframeText(t))) == t
  {
    var texts := ["1M", "3M", "6M", "1Y", "5Y"];
    assert texts[0][0] == '1' && texts[1][0] == '3' && texts[2][0] == '6' && texts[3][1] == 'Y' && texts[4][0] == '5';
    assert texts[0][1] == 'M' && texts[3][0] == '1';
  }

  lemma JoinNotEmpty(upper: string -> string, tickers: seq<string>)
    requires tickers != [] && IsTicker(upper, tickers[0])
    ensures Csv.Join(tickers, ",") != ""
  {
  }

  /** So building a link from a parsed address and following it changes nothing. */
  lemma LinksAreStable(upper: string -> string, params: SearchParams, symbolsAlias: bool)
    requires IsUpperCase(upper)
    ensures var c := ParseCompareSearchParams(upper, params);
            ParseCompareSearchParams(upper, CompareParams(c, symbolsAlias)) == c
  {
    ParsedIsCanonical(upper, if params.tickers.Some? then params.tickers else params.symbols);
    LinkReadsBack(upper, ParseCompareSearchParams(upper, params), symbolsAlias);
  }

  // ---------- which tickers an address names ----------

  /** The ticker a part of the list stands for, or the empty text. */
  function TickerOf(upper: string -> string, part: string): string {
    upper(Trim(part))
  }

  /** Positions in a list, rising. */
  ghost predicate Rising(at: seq<nat>, length: nat) {
    && (forall k | 0 <= k < |at| :: at[k] < length)
    && (forall k, l | 0 <= k < l < |at| :: at[k] < at[l])
  }

  /** One part more adds its ticker when that is neither blank nor there already. */
  lemma NamedAnother(upper: string -> string, parts: seq<string>, part: string)
    ensures var all, t := Distinct(Normalise(upper, parts)), TickerOf(upper, part);
            Distinct(Normalise(upper, parts + [part])) == all + if t == "" || t in all then [] else [t]
  {
    var texts, t := Normalise(upper, parts), TickerOf(upper, part);
    assert (parts + [part])[..|parts|] == parts;
    assert Normalise(upper, parts + [part]) == texts + if t == "" then [] else [t];
    DistinctMembers(texts);
    if t == "" {
      assert texts + [] == texts;
    } else {
      assert (texts + [t])[..|texts|] == texts;
    }
  }

  /** Ticker `k` is the first occurrence of part `at[k]`'s ticker. */
  ghost predicate FirstOccurrences(upper: string -> string, parts: seq<string>, tickers: seq<string>, at: seq<nat>) {
    && |at| == |tickers| && Rising(at, |parts|)
    && (forall k | 0 <= k < |at| :: tickers[k] == TickerOf(upper, parts[at[k]]) != "")
    && (forall k, i: nat | 0 <= k < |at| && i < at[k] :: TickerOf(upper, parts[i]) != tickers[k])
  }

  /** The ticker of every part is there, from that part or an earlier one. */
  ghost predicate NoneMissing(upper: string -> string, parts: seq<string>, tickers: seq<string>, at: seq<nat>)
    requires |at| == |tickers|
  {
    forall i: nat | i < |parts| && TickerOf(upper, parts[i]) != "" :: GivenBy(tickers, at, TickerOf(upper, parts[i]), i)
  }

  ghost predicate GivenBy(tickers: seq<string>, at: seq<nat>, ticker: string, i: nat)
    requires |at| == |tickers|
  {
    exists k | 0 <= k < |at| :: at[k] <= i && tickers[k] == ticker
  }

  lemma TickerIsNew(upper: string -> string, parts: seq<string>, tickers: seq<string>, at: seq<nat>, t: string)
    requires |at| == |tickers| && NoneMissing(upper, parts, tickers, at) && t != "" && t !in tickers
    ensures forall i: nat | i < |parts| :: TickerOf(upper, parts[i]) != t
  {
    forall i: nat | i < |parts| ensures TickerOf(upper, parts[i]) != t {
      if TickerOf(upper, parts[i]) != "" {
        assert GivenBy(tickers, at, TickerOf(upper, parts[i]), i);
        var k :| 0 <= k < |at| && at[k] <= i && tickers[k] == TickerOf(upper, parts[i]);
        assert tickers[k] in tickers;
      }
    }
  }

  lemma OccurrenceAdded(upper: string -> string, parts: seq<string>, tickers: seq<string>, at: seq<nat>, pos: nat, t: string)
    requires FirstOccurrences(upper, parts, tickers, at) && pos < |parts| && t == TickerOf(upper, parts[pos]) != ""
    requires (forall k | 0 <= k < |at| :: at[k] < pos) && forall i: nat | i < pos :: TickerOf(upper, parts[i]) != t
    ensures FirstOccurrences(upper, parts, tickers + [t], at + [pos])
  {
  }

  lemma OccurrenceAnother(upper: string -> string, parts: seq<string>, part: string, tickers: seq<string>, at: seq<nat>)
    requires FirstOccurrences(upper, parts, tickers, at) && NoneMissing(upper, parts, tickers, at)
    requires TickerOf(upper, part) != "" && TickerOf(upper, part) !in tickers
    ensures FirstOccurrences(upper, parts + [part], tickers + [TickerOf(upper, part)], at + [|parts|])
  {
    TickerIsNew(upper, parts, tickers, at, TickerOf(upper, part));
    OccurrenceSame(upper, parts, part, tickers, at);
    var more := parts + [part];
    forall i: nat | i < |parts| ensures TickerOf(upper, more[i]) != TickerOf(upper, part) {
      assert more[i] == parts[i];
    }
    OccurrenceAdded(upper, more, tickers, at, |parts|, TickerOf(upper, part));
  }

  lemma OccurrenceSame(upper: string -> string, parts: seq<string>, part: string, tickers: seq<string>, at: seq<nat>)
    requires FirstOccurrences(upper, parts, tickers, at)
    ensures FirstOccurrences(upper, parts + [part], tickers, at)
  {
    assert forall i | 0 <= i < |parts| :: (parts + [part])[i] == parts[i];
  }

  lemma MissingAnother(upper: string -> string, parts: seq<string>, part: string, tickers: seq<string>, at: seq<nat>, extra: seq<string>, pos: seq<nat>)
    requires Rising(at, |parts|) && |at| == |tickers| && NoneMissing(upper, parts, tickers, at)
    requires (extra == [] && pos == [] && (TickerOf(upper, part) == "" || TickerOf(upper, part) in tickers))
          || (extra == [TickerOf(upper, part)] && pos == [|parts|])
    ensures NoneMissing(upper, parts + [part], tickers + extra, at + pos)
  {
    var more := parts + [part];
    forall i: nat | i < |more| && TickerOf(upper, more[i]) != ""
      ensures GivenBy(tickers + extra, at + pos, TickerOf(upper, more[i]), i)
    {
      if i < |parts| {
        assert GivenBy(tickers, at, TickerOf(upper, parts[i]), i);
        var k :| 0 <= k < |at| && at[k] <= i && tickers[k] == TickerOf(upper, parts[i]);
        assert (at + pos)[k] == at[k] && (tickers + extra)[k] == tickers[k];
      } else if extra == [] {
        var k :| 0 <= k < |tickers| && tickers[k] == TickerOf(upper, part);
        assert (at + pos)[k] == at[k] && (tickers + extra)[k] == tickers[k];
      } else {
        assert (at + pos)[|at|] == |parts| && (tickers + extra)[|at|] == extra[0];
      }
    }
  }

  lemma {:induction false} NamedPositions(upper: string -> string, parts: seq<string>) returns (at: seq<nat>)
    ensures FirstOccurrences(upper, parts, Distinct(Normalise(upper, parts)), at)
    ensures NoneMissing(upper, parts, Distinct(Normalise(upper, parts)), at)
    decreases |parts|
  {
    if parts == [] {
      at := [];
    } else {
      var n := |parts| - 1;
      at := NamedPositions(upper, parts[..n]);
      at := NamedStep(upper, parts[..n], parts[n], Distinct(Normalise(upper, parts[..n])), at);
      LastApart(parts);
    }
  }

  lemma NamedStep(upper: string -> string, parts: seq<string>, part: string, all: seq<string>, at: seq<nat>) returns (more: seq<nat>)
    requires all == Distinct(Normalise(upper, parts))
    requires FirstOccurrences(upper, parts, all, at) && NoneMissing(upper, parts, all, at)
    ensures FirstOccurrences(upper, parts + [part], Distinct(Normalise(upper, parts + [part])), more)
    ensures NoneMissing(upper, parts + [part], Distinct(Normalise(upper, parts + [part])), more)
  {
    NamedAnother(upper, parts, part);
    more := OneMoreNamed(upper, parts, part, TickerOf(upper, part), all, at);
  }

  lemma OneMoreNamed(upper: string -> string, parts: seq<string>, part: string, t: string, all: seq<string>, at: seq<nat>) returns (more: seq<nat>)
    requires t == TickerOf(upper, part)
    requires FirstOccurrences(upper, parts, all, at) && NoneMissing(upper, parts, all, at)
    ensures FirstOccurrences(upper, parts + [part], all + (if t == "" || t in all then [] else [t]), more)
    ensures NoneMissing(upper, parts + [part], all + (if t == "" || t in all then [] else [t]), more)
  {
    if t == "" || t in all {
      more := at;
      OccurrenceSame(upper, parts, part, all, at);
      MissingAnother(upper, parts, part, all, at, [], []);
      assert all + [] == all && at + [] == at;
    } else {
      more := at + [|parts|];
      OccurrenceAnother(upper, parts, part, all, at);
      MissingAnother(upper, parts, part, all, at, [t], [|parts|]);
    }
  }

  /** The first six of the tickers, with their positions; a ticker is missing only behind six others. */
  ghost predicate FirstSix(upper: string -> string, parts: seq<string>, tickers: seq<string>, at: seq<nat>) {
    && |tickers| <= 6 && FirstOccurrences(upper, parts, tickers, at)
    && forall i: nat | i < |parts| && TickerOf(upper, parts[i]) != "" ::
         TickerOf(upper, parts[i]) in tickers || (|at| == 6 && at[5] < i)
  }

  lemma CutOccurrences(upper: string -> string, parts: seq<string>, all: seq<string>, at: seq<nat>, n: nat)
    requires FirstOccurrences(upper, parts, all, at) && n <= |all|
    ensures FirstOccurrences(upper, parts, all[..n], at[..n])
  {
    var tickers, kept := all[..n], at[..n];
    forall k | 0 <= k < n ensures tickers[k] == all[k] && kept[k] == at[k] {
    }
  }

  lemma CutFinds(all: seq<string>, at: seq<nat>, ticker: string, i: nat)
    requires |at| == |all| > 6 && (forall k, l | 0 <= k < l < |at| :: at[k] < at[l]) && GivenBy(all, at, ticker, i)
    ensures ticker in all[..6] || at[5] < i
  {
    var k :| 0 <= k < |at| && at[k] <= i && all[k] == ticker;
    if k < 6 {
      assert all[..6][k] == ticker;
    }
  }

  lemma CutAtSix(upper: string -> string, parts: seq<string>, all: seq<string>, at: seq<nat>)
    requires FirstOccurrences(upper, parts, all, at) && NoneMissing(upper, parts, all, at)
    ensures FirstSix(upper, parts, if |all| > 6 then all[..6] else all, if |all| > 6 then at[..6] else at)
  {
    if |all| > 6 {
      CutOccurrences(upper, parts, all, at, 6);
      forall i: nat | i < |parts| && TickerOf(upper, parts[i]) != ""
        ensures TickerOf(upper, parts[i]) in all[..6] || at[..6][5] < i
      {
        CutFinds(all, at, TickerOf(upper, parts[i]), i);
      }
    } else {
      forall i: nat | i < |parts| && TickerOf(upper, parts[i]) != "" ensures TickerOf(upper, parts[i]) in all {
        assert GivenBy(all, at, TickerOf(upper, parts[i]), i);
      }
    }
  }

  /** An address names, of its parts trimmed and in capitals, the first six distinct ones
      that are not blank, in the order in which they first occur. */
  lemma AddressNamesTickers(upper: string -> string, parts: seq<string>) returns (at: seq<nat>)
    requires parts != [] && (forall part <- parts :: ',' !in part) && upper("") == ""
    ensures FirstSix(upper, parts, ParseCompareTickers(upper, Some(Csv.Join(parts, ","))), at)
  {
    SplitUndoesJoin(parts);
    EmptyAddress(upper, parts);
    var all := Distinct(Normalise(upper, parts));
    at := NamedPositions(upper, parts);
    CutAtSix(upper, parts, all, at);
    at := if |all| > 6 then at[..6] else at;
  }

  /** The empty address has one part, the empty text, and so no ticker. */
  lemma EmptyAddress(upper: string -> string, parts: seq<string>)
    requires parts != [] && (forall part <- parts :: ',' !in part) && upper("") == ""
    ensures Csv.Join(parts, ",") == "" ==> Normalise(upper, parts) == []
  {
    if Csv.Join(parts, ",") == "" {
      SplitUndoesJoin(parts);
      assert SplitOnComma("") == [""];
      assert [""][..0] == [];
      assert Normalise(upper, []) == [];
    }
  }

  /** The list comes from `tickers` when that is given and from `symbols` otherwise, and
      any timeframe that is not one of the five texts is a year. */
  lemma AddressParameters(upper: string -> string, params: SearchParams)
    ensures var c := ParseCompareSearchParams(upper, params);
            && c.tickers == ParseCompareTickers(upper, if params.tickers.Some? then params.tickers else params.symbols)
            && ParseCompareTickers(upper, None) == []
            && c.timeframe == (if params.tf == Some("1M") then OneMonth else if params.tf == Some("3M") then ThreeMonths
                               else if params.tf == Some("6M") then SixMonths else if params.tf == Some("5Y") then FiveYears
                               else OneYear)
  {
  }
}
