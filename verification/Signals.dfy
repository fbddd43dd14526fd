/** Signal rows: votes rebuilt from rationale lines, missing votes filled in, and
    the filters and order of the signals table. */
module Signals {
  import opened Wrappers
  import opened Numerals
  import opened Sequences
  import opened Sorting
  import opened Ranking

  const BULLISH_THRESHOLD := 4.0

  datatype Vote = Vote(id: string, caption: string, passed: bool, detail: string)

  datatype VoteSpec = VoteSpec(id: string, caption: string, needle: string)

  const VOTE_SPECS: seq<VoteSpec> := [
    VoteSpec("below_mean", "Below historical mean", "Below historical mean"),
    VoteSpec("below_median", "Below historical median", "Below historical median"),
    VoteSpec("within_one_stdev", "Within 1 stdev below mean", "Within 1 stdev below mean"),
    VoteSpec("volume_above_mean", "Volume above average", "Volume above average"),
    VoteSpec("recent_uptrend", "3-bar uptrend", "uptrend"),
    VoteSpec("positive_slope", "Positive 5-bar slope", "-bar slope"),
    VoteSpec("positive_sentiment", "Positive news sentiment", "Positive news sentiment")
  ]

  datatype SignalClass = Bullish | Neutral

  datatype Recommendation = Recommendation(
    ticker: string, name: string, sector: Option<string>, score: real, votes: Option<seq<Vote>>,
    rationale: Option<seq<string>>, sentiment7d: Option<real>, computedAt: string)

  datatype SignalRow = SignalRow(
    ticker: string, name: string, sector: Option<string>, score: real, signal: SignalClass, votes: seq<Vote>,
    supportingVotes: nat, sentiment7d: Option<real>, computedAt: string)

  function ClassifySignal(score: real): SignalClass {
    if score >= BULLISH_THRESHOLD then Bullish else Neutral
  }

  // ---------- votes from rationale lines ----------

  /** `toLowerCase`, of which only this is used: the empty string is the one with no letters to keep. */
  ghost predicate IsCaseMap(lower: string -> string) {
    forall s :: lower(s) == "" <==> s == ""
  }

  /** `s.includes(part)`. */
  predicate Includes(s: string, part: string)
    decreases |s|
  {
    part <= s || (s != "" && Includes(s[1..], part))
  }

  lemma {:induction false} IncludesSomewhere(s: string, part: string)
    ensures Includes(s, part) <==> exists lead: string, trail: string :: s == lead + part + trail
    decreases |s|
  {
    if part <= s {
      assert s == "" + part + s[|part|..];
    } else if s != "" {
      IncludesSomewhere(s[1..], part);
      if lead: string, trail: string :| s[1..] == lead + part + trail {
        assert s == [s[0]] + lead + part + trail;
      }
      if lead: string, trail: string :| s == lead + part + trail {
        NotAtStart(s, lead, part, trail);
      }
    }
  }

  lemma NotAtStart(s: string, lead: string, part: string, trail: string)
    requires s == lead + part + trail && !(part <= s)
    ensures s != "" && s[1..] == lead[1..] + part + trail
  {
    if lead == "" {
      assert false;
    }
  }

  predicate Backs(lower: string -> string, spec: VoteSpec, line: string) {
    Includes(lower(line), lower(spec.needle))
  }

  function Excuse(caption: string): string {
    caption + " did not contribute to this score"
  }

  /** The first line that backs a vote, as an index; `|lines|` when none does. */
  function FirstBacking(lower: string -> string, spec: VoteSpec, lines: seq<string>): (k: nat)
    ensures k <= |lines|
    ensures k < |lines| ==> Backs(lower, spec, lines[k])
    ensures forall j | 0 <= j < k :: !Backs(lower, spec, lines[j])
  {
    if lines == [] || Backs(lower, spec, lines[0]) then 0 else 1 + FirstBacking(lower, spec, lines[1..])
  }

  function IndexOfLine(line: string, lines: seq<string>): (k: nat)
    ensures k <= |lines|
    ensures k < |lines| ==> lines[k] == line
    ensures forall j | 0 <= j < k :: lines[j] != line
  {
    if lines == [] || lines[0] == line then 0 else 1 + IndexOfLine(line, lines[1..])
  }

  /** Vote `k` rests on the line `picks[k]` of the rationale: the first line that
      backs it and that no earlier vote rests on. It fails when there is none. */
  ghost predicate VoteBacked(lower: string -> string, lines: seq<string>, vote: Vote, spec: VoteSpec,
                             pick: Option<nat>, taken: seq<Option<nat>>) {
    && vote.id == spec.id
    && vote.caption == spec.caption
    && match pick
       case None =>
         && !vote.passed
         && vote.detail == Excuse(spec.caption)
         && (forall i: nat | i < |lines| && Backs(lower, spec, lines[i]) :: Some(i) in taken)
       case Some(k) =>
         && k < |lines|
         && vote.passed
         && vote.detail == lines[k]
         && Backs(lower, spec, lines[k])
         && Some(k) !in taken
         && (forall i: nat | i < k && Backs(lower, spec, lines[i]) :: Some(i) in taken)
  }

  /** Every vote so far rests on its own line. */
  ghost predicate AllBacked(lower: string -> string, lines: seq<string>, votes: seq<Vote>, picks: seq<Option<nat>>) {
    && |votes| == |picks| <= |VOTE_SPECS|
    && forall k | 0 <= k < |votes| :: VoteBacked(lower, lines, votes[k], VOTE_SPECS[k], picks[k], picks[..k])
  }

  /** The indices of the lines not yet consumed, in order, and those lines. */
  ghost predicate Unconsumed(lines: seq<string>, picks: seq<Option<nat>>, free: seq<nat>, remaining: seq<string>) {
    && |free| == |remaining|
    && (forall m | 0 <= m < |free| :: free[m] < |lines| && Some(free[m]) !in picks && remaining[m] == lines[free[m]])
    && (forall m, n | 0 <= m < n < |free| :: free[m] < free[n])
    && (forall i: nat | i < |lines| && Some(i) !in picks :: i in free)
  }

  function Indices(n: nat): (r: seq<nat>)
    ensures |r| == n && forall i: nat | i < n :: r[i] == i
  {
    if n == 0 then [] else Indices(n - 1) + [n - 1]
  }

  lemma BackingNotBlank(lower: string -> string, k: nat, line: string)
    requires IsCaseMap(lower) && k < |VOTE_SPECS| && Backs(lower, VOTE_SPECS[k], line)
    ensures line != ""
  {
    assert lower(VOTE_SPECS[k].needle) != "";
  }

  lemma FirstRemaining(lower: string -> string, lines: seq<string>, picks: seq<Option<nat>>, free: seq<nat>,
                       remaining: seq<string>, spec: VoteSpec, i: nat)
    requires Unconsumed(lines, picks, free, remaining)
    requires i < |lines| && Backs(lower, spec, lines[i]) && Some(i) !in picks
    ensures var k := FirstBacking(lower, spec, remaining); k < |free| && free[k] <= i
  {
    var m :| 0 <= m < |free| && free[m] == i;
    assert remaining[m] == lines[i];
  }

  /** No vote's line precedes the first remaining one that backs it, among the lines not taken. */
  lemma EarlierTaken(lower: string -> string, lines: seq<string>, picks: seq<Option<nat>>, free: seq<nat>,
                     remaining: seq<string>, spec: VoteSpec)
    requires Unconsumed(lines, picks, free, remaining)
    ensures var k := FirstBacking(lower, spec, remaining);
            forall i: nat | i < (if k < |free| then free[k] else |lines|) && i < |lines| && Backs(lower, spec, lines[i]) ::
              Some(i) in picks
  {
    var k := FirstBacking(lower, spec, remaining);
    forall i: nat | i < (if k < |free| then free[k] else |lines|) && i < |lines| && Backs(lower, spec, lines[i])
      ensures Some(i) in picks
    {
      if Some(i) !in picks {
        FirstRemaining(lower, lines, picks, free, remaining, spec, i);
      }
    }
  }

  /** The first remaining line that backs a vote is the line the vote rests on. */
  lemma LineFound(lower: string -> string, lines: seq<string>, picks: seq<Option<nat>>, free: seq<nat>,
                  remaining: seq<string>, spec: VoteSpec)
    requires Unconsumed(lines, picks, free, remaining)
    ensures var k := FirstBacking(lower, spec, remaining);
            if k < |remaining| then
              VoteBacked(lower, lines, Vote(spec.id, spec.caption, true, remaining[k]), spec, Some(free[k]), picks)
            else
              VoteBacked(lower, lines, Vote(spec.id, spec.caption, false, Excuse(spec.caption)), spec, None, picks)
  {
    var k := FirstBacking(lower, spec, remaining);
    EarlierTaken(lower, lines, picks, free, remaining, spec);
    if k < |remaining| {
      assert Some(free[k]) !in picks && remaining[k] == lines[free[k]];
    }
  }

  lemma TakeLine(lower: string -> string, lines: seq<string>, picks: seq<Option<nat>>, free: seq<nat>,
                 remaining: seq<string>, spec: VoteSpec)
    requires Unconsumed(lines, picks, free, remaining)
    ensures var k := FirstBacking(lower, spec, remaining);
            if k < |remaining| then
              && VoteBacked(lower, lines, Vote(spec.id, spec.caption, true, remaining[k]), spec, Some(free[k]), picks)
              && Unconsumed(lines, picks + [Some(free[k])], free[..k] + free[k + 1..], remaining[..k] + remaining[k + 1..])
            else
              VoteBacked(lower, lines, Vote(spec.id, spec.caption, false, Excuse(spec.caption)), spec, None, picks)
  {
    var k := FirstBacking(lower, spec, remaining);
    LineFound(lower, lines, picks, free, remaining, spec);
    if k < |remaining| {
      DropLine(lines, picks, free, remaining, k);
    }
  }

  /** Deleting position `k`, read back position by position. */
  lemma Without<T>(s: seq<T>, k: nat, m: nat)
    requires k < |s| && m < |s| - 1
    ensures (s[..k] + s[k + 1..])[m] == s[if m < k then m else m + 1]
  {
  }

  lemma DropLine(lines: seq<string>, picks: seq<Option<nat>>, free: seq<nat>, remaining: seq<string>, k: nat)
    requires Unconsumed(lines, picks, free, remaining) && k < |free|
    ensures Unconsumed(lines, picks + [Some(free[k])], free[..k] + free[k + 1..], remaining[..k] + remaining[k + 1..])
  {
    var rest, left := free[..k] + free[k + 1..], remaining[..k] + remaining[k + 1..];
    var more := picks + [Some(free[k])];
    forall m | 0 <= m < |rest| ensures rest[m] < |lines| && Some(rest[m]) !in more && left[m] == lines[rest[m]] {
      Without(free, k, m);
      Without(remaining, k, m);
    }
    forall m, n | 0 <= m < n < |rest| ensures rest[m] < rest[n] {
      Without(free, k, m);
      Without(free, k, n);
    }
    forall i: nat | i < |lines| && Some(i) !in more ensures i in rest {
      StillFree(lines, picks, free, remaining, k, i);
    }
  }

  lemma StillFree(lines: seq<string>, picks: seq<Option<nat>>, free: seq<nat>, remaining: seq<string>, k: nat, i: nat)
    requires Unconsumed(lines, picks, free, remaining) && k < |free|
    requires i < |lines| && Some(i) !in picks + [Some(free[k])]
    ensures i in free[..k] + free[k + 1..]
  {
    assert Some(i) !in picks && i != free[k];
    var m :| 0 <= m < |free| && free[m] == i;
    Without(free, k, if m < k then m else m - 1);
  }

  lemma AllFree(lines: seq<string>)
    ensures Unconsumed(lines, [], Indices(|lines|), lines)
  {
    var free := Indices(|lines|);
    forall i: nat | i < |lines| ensures i in free {
      assert free[i] == i;
    }
  }

  lemma FailureTakesNoLine(lines: seq<string>, picks: seq<Option<nat>>, free: seq<nat>, remaining: seq<string>)
    requires Unconsumed(lines, picks, free, remaining)
    ensures Unconsumed(lines, picks + [None], free, remaining)
  {
  }

  lemma AnotherVote(lower: string -> string, lines: seq<string>, votes: seq<Vote>, picks: seq<Option<nat>>,
                    vote: Vote, pick: Option<nat>)
    requires AllBacked(lower, lines, votes, picks) && |votes| < |VOTE_SPECS|
    requires VoteBacked(lower, lines, vote, VOTE_SPECS[|votes|], pick, picks)
    ensures AllBacked(lower, lines, votes + [vote], picks + [pick])
  {
    var more := picks + [pick];
    forall k | 0 <= k <= |votes|
      ensures VoteBacked(lower, lines, (votes + [vote])[k], VOTE_SPECS[k], more[k], more[..k])
    {
      assert more[..k] == picks[..k];
    }
  }

  /** Each vote takes the first remaining line that mentions it and removes that line. */
  method VotesFromRationale(lower: string -> string, rationale: seq<string>)
    returns (votes: seq<Vote>, ghost picks: seq<Option<nat>>)
    requires IsCaseMap(lower)
    ensures |votes| == |VOTE_SPECS| && AllBacked(lower, rationale, votes, picks)
  {
    var remaining := rationale;
    ghost var free: seq<nat> := Indices(|rationale|);
    AllFree(rationale);
    votes, picks := [], [];
    while |votes| < |VOTE_SPECS|
      invariant AllBacked(lower, rationale, votes, picks)
      invariant Unconsumed(rationale, picks, free, remaining)
      decreases |VOTE_SPECS| - |votes|
    {
      var spec := VOTE_SPECS[|votes|];
      var found := FirstBacking(lower, spec, remaining);
      TakeLine(lower, rationale, picks, free, remaining, spec);
      if found < |remaining| {
        BackingNotBlank(lower, |votes|, remaining[found]);
      }
      if found < |remaining| && remaining[found] != "" {
        var line := remaining[found];
        var at := IndexOfLine(line, remaining);
        LineIndex(lower, spec, remaining);
        AnotherVote(lower, rationale, votes, picks, Vote(spec.id, spec.caption, true, line), Some(free[at]));
        votes := votes + [Vote(spec.id, spec.caption, true, line)];
        picks := picks + [Some(free[at])];
        remaining := remaining[..at] + remaining[at + 1..];
        free := free[..at] + free[at + 1..];
      } else {
        AnotherVote(lower, rationale, votes, picks, Vote(spec.id, spec.caption, false, Excuse(spec.caption)), None);
        FailureTakesNoLine(rationale, picks, free, remaining);
        votes := votes + [Vote(spec.id, spec.caption, false, Excuse(spec.caption))];
        picks := picks + [None];
      }
    }
  }

  /** Looking the matched line up again finds the same place. */
  lemma LineIndex(lower: string -> string, spec: VoteSpec, lines: seq<string>)
    requires FirstBacking(lower, spec, lines) < |lines|
    ensures IndexOfLine(lines[FirstBacking(lower, spec, lines)], lines) == FirstBacking(lower, spec, lines)
  {
    var k := FirstBacking(lower, spec, lines);
    var at := IndexOfLine(lines[k], lines);
    assert at <= k;
    assert lines[at] == lines[k];
  }

  // ---------- each line backs at most one vote ----------

  function Passed(votes: seq<Vote>): seq<Vote> {
    if votes == [] then [] else
      Passed(votes[..|votes| - 1]) + if votes[|votes| - 1].passed then [votes[|votes| - 1]] else []
  }

  function Details(votes: seq<Vote>): seq<string> {
    if votes == [] then [] else
      Details(votes[..|votes| - 1]) + if votes[|votes| - 1].passed then [votes[|votes| - 1].detail] else []
  }

  /** The lines no vote rests on. */
  function Leftover(lines: seq<string>, picks: seq<Option<nat>>): seq<string>
    decreases |lines|
  {
    if lines == [] then [] else
      var n := |lines| - 1;
      Leftover(lines[..n], picks) + if Some(n) in picks then [] else [lines[n]]
  }

  lemma {:induction false} NothingTaken(lines: seq<string>)
    ensures Leftover(lines, []) == lines
  {
    if lines != [] {
      NothingTaken(lines[..|lines| - 1]);
    }
  }

  lemma {:induction false} OutsidePick(lines: seq<string>, picks: seq<Option<nat>>, pick: Option<nat>)
    requires pick.Some? ==> |lines| <= pick.value
    ensures Leftover(lines, picks + [pick]) == Leftover(lines, picks)
    decreases |lines|
  {
    if lines != [] {
      OutsidePick(lines[..|lines| - 1], picks, pick);
    }
  }

  lemma {:induction false} PickTakesLine(lines: seq<string>, picks: seq<Option<nat>>, i: nat)
    requires i < |lines| && Some(i) !in picks
    ensures multiset(Leftover(lines, picks)) == multiset(Leftover(lines, picks + [Some(i)])) + multiset{lines[i]}
    decreases |lines|
  {
    var n := |lines| - 1;
    if i == n {
      OutsidePick(lines[..n], picks, Some(i));
    } else {
      PickTakesLine(lines[..n], picks, i);
    }
  }

  /** A vote moves its line, and nothing else, out of the leftover. */
  lemma VoteTakesLine(lower: string -> string, lines: seq<string>, vote: Vote, spec: VoteSpec, pick: Option<nat>, taken: seq<Option<nat>>)
    requires VoteBacked(lower, lines, vote, spec, pick, taken)
    ensures multiset(Leftover(lines, taken))
         == multiset(Leftover(lines, taken + [pick])) + if vote.passed then multiset{vote.detail} else multiset{}
  {
    match pick
    case None => OutsidePick(lines, taken, None);
    case Some(i) => PickTakesLine(lines, taken, i);
  }

  lemma DetailsLast(votes: seq<Vote>, vote: Vote)
    ensures multiset(Details(votes + [vote])) == multiset(Details(votes)) + if vote.passed then multiset{vote.detail} else multiset{}
  {
    assert (votes + [vote])[..|votes|] == votes;
  }

  lemma Moved<T>(out: multiset<T>, left: multiset<T>, moved: multiset<T>, all: multiset<T>, out': multiset<T>, left': multiset<T>)
    requires out + left == all && left == left' + moved && out' == out + moved
    ensures out' + left' == all
  {
  }

  lemma ConservedStep(lower: string -> string, lines: seq<string>, votes: seq<Vote>, vote: Vote, spec: VoteSpec,
                      pick: Option<nat>, taken: seq<Option<nat>>)
    requires VoteBacked(lower, lines, vote, spec, pick, taken)
    requires multiset(Details(votes)) + multiset(Leftover(lines, taken)) == multiset(lines)
    ensures multiset(Details(votes + [vote])) + multiset(Leftover(lines, taken + [pick])) == multiset(lines)
  {
    VoteTakesLine(lower, lines, vote, spec, pick, taken);
    DetailsLast(votes, vote);
    Moved(multiset(Details(votes)), multiset(Leftover(lines, taken)), if vote.passed then multiset{vote.detail} else multiset{},
          multiset(lines), multiset(Details(votes + [vote])), multiset(Leftover(lines, taken + [pick])));
  }

  /** What the passed votes quote, with the lines left over, is the whole rationale. */
  lemma {:induction false} LinesConserved(lower: string -> string, lines: seq<string>, votes: seq<Vote>, picks: seq<Option<nat>>)
    requires AllBacked(lower, lines, votes, picks)
    ensures multiset(Details(votes)) + multiset(Leftover(lines, picks)) == multiset(lines)
    decreases |votes|
  {
    if votes == [] {
      NothingTaken(lines);
    } else {
      var n := |votes| - 1;
      ShorterBacked(lower, lines, votes, picks);
      LinesConserved(lower, lines, votes[..n], picks[..n]);
      ConservedStep(lower, lines, votes[..n], votes[n], VOTE_SPECS[n], picks[n], picks[..n]);
      LastApart(picks);
      LastApart(votes);
    }
  }

  lemma ShorterBacked(lower: string -> string, lines: seq<string>, votes: seq<Vote>, picks: seq<Option<nat>>)
    requires AllBacked(lower, lines, votes, picks) && votes != []
    ensures AllBacked(lower, lines, votes[..|votes| - 1], picks[..|votes| - 1])
  {
    var n := |votes| - 1;
    forall k | 0 <= k < n
      ensures VoteBacked(lower, lines, votes[..n][k], VOTE_SPECS[k], picks[..n][k], picks[..n][..k])
    {
      assert picks[..n][..k] == picks[..k];
    }
  }

  lemma {:induction false} PassedMembers(votes: seq<Vote>)
    ensures forall v :: v in Passed(votes) <==> v in votes && v.passed
    ensures |Passed(votes)| <= |votes|
  {
    if votes != [] {
      var n := |votes| - 1;
      PassedMembers(votes[..n]);
      assert votes == votes[..n] + [votes[n]];
    }
  }

  lemma {:induction false} DetailPerPass(votes: seq<Vote>)
    ensures |Details(votes)| == |Passed(votes)|
    decreases |votes|
  {
    if votes != [] {
      DetailPerPass(votes[..|votes| - 1]);
    }
  }

  /** A rationale never supports more votes than it has lines. */
  lemma SupportBounded(lower: string -> string, lines: seq<string>, votes: seq<Vote>, picks: seq<Option<nat>>)
    requires AllBacked(lower, lines, votes, picks)
    ensures |Passed(votes)| <= |lines| && |Passed(votes)| <= 7
  {
    LinesConserved(lower, lines, votes, picks);
    DetailPerPass(votes);
    assert |multiset(Details(votes)) + multiset(Leftover(lines, picks))| == |multiset(lines)|;
    PassedMembers(votes);
  }

  lemma OneBacking(lower: string -> string, lines: seq<string>, spec: VoteSpec, taken: seq<Option<nat>>,
                   v: Vote, p: Option<nat>, w: Vote, q: Option<nat>)
    requires VoteBacked(lower, lines, v, spec, p, taken) && VoteBacked(lower, lines, w, spec, q, taken)
    ensures v == w && p == q
  {
  }

  /** The reconstruction is determined by the rationale. */
  lemma {:induction false} BackingUnique(lower: string -> string, lines: seq<string>, votes: seq<Vote>, picks: seq<Option<nat>>,
                                         others: seq<Vote>, otherPicks: seq<Option<nat>>)
    requires AllBacked(lower, lines, votes, picks) && AllBacked(lower, lines, others, otherPicks) && |votes| == |others|
    ensures votes == others && picks == otherPicks
    decreases |votes|
  {
    if votes != [] {
      var n := |votes| - 1;
      ShorterBacked(lower, lines, votes, picks);
      ShorterBacked(lower, lines, others, otherPicks);
      BackingUnique(lower, lines, votes[..n], picks[..n], others[..n], otherPicks[..n]);
      OneBacking(lower, lines, VOTE_SPECS[n], picks[..n], votes[n], picks[n], others[n], otherPicks[n]);
      LastApart(votes);
      LastApart(others);
      LastApart(picks);
      LastApart(otherPicks);
    }
  }

  // ---------- completing the votes ----------

  /** `new Map(votes by id).get(id)`: a later vote replaces an earlier one with its id. */
  function VoteById(votes: seq<Vote>, id: string): (r: Option<Vote>)
    ensures r.Some? ==> r.value in votes && r.value.id == id
    ensures r.None? ==> forall v <- votes :: v.id != id
  {
    if votes == [] then None
    else if votes[|votes| - 1].id == id then Some(votes[|votes| - 1])
    else VoteById(votes[..|votes| - 1], id)
  }

  function CompleteVote(votes: seq<Vote>, spec: VoteSpec): Vote {
    match VoteById(votes, spec.id)
    case Some(v) => v
    case None => Vote(spec.id, spec.caption, false, Excuse(spec.caption))
  }

  function CompleteFor(votes: seq<Vote>, specs: seq<VoteSpec>): (r: seq<Vote>)
    ensures |r| == |specs|
    ensures forall k | 0 <= k < |r| :: r[k] == CompleteVote(votes, specs[k])
  {
    if specs == [] then [] else [CompleteVote(votes, specs[0])] + CompleteFor(votes, specs[1..])
  }

  function CompleteSignalVotes(votes: seq<Vote>): seq<Vote> {
    CompleteFor(votes, VOTE_SPECS)
  }

  /** One vote per spec, in spec order. */
  ghost predicate FullPanel(votes: seq<Vote>) {
    |votes| == |VOTE_SPECS| && forall k | 0 <= k < |votes| :: votes[k].id == VOTE_SPECS[k].id
  }

  ghost predicate DistinctIds(votes: seq<Vote>) {
    forall i, j | 0 <= i < j < |votes| :: votes[i].id != votes[j].id
  }

  lemma SpecIdsDiffer(i: nat, j: nat)
    requires i < j < |VOTE_SPECS|
    ensures VOTE_SPECS[i].id != VOTE_SPECS[j].id
  {
    var lengths := [10, 12, 16, 17, 14, 14, 18];
    assert |VOTE_SPECS[i].id| == lengths[i] && |VOTE_SPECS[j].id| == lengths[j];
    assert VOTE_SPECS[4].id[0] == 'r' && VOTE_SPECS[5].id[0] == 'p';
  }

  lemma FullPanelDistinct(votes: seq<Vote>)
    requires FullPanel(votes)
    ensures DistinctIds(votes)
  {
    forall i, j | 0 <= i < j < |votes| ensures votes[i].id != votes[j].id {
      SpecIdsDiffer(i, j);
    }
  }

  lemma {:induction false} OnlyVoteById(votes: seq<Vote>, v: Vote)
    requires DistinctIds(votes) && v in votes
    ensures VoteById(votes, v.id) == Some(v)
    decreases |votes|
  {
    var n := |votes| - 1;
    if votes[n] != v {
      assert v in votes[..n];
      OnlyVoteById(votes[..n], v);
      var i :| 0 <= i < n && votes[i] == v;
    }
  }

  /** The detail pane is always full; what it adds is only failed votes. */
  lemma CompletedPanel(votes: seq<Vote>)
    ensures FullPanel(CompleteSignalVotes(votes))
    ensures forall v <- CompleteSignalVotes(votes) | v !in votes :: !v.passed
    ensures forall v <- CompleteSignalVotes(votes) | v !in votes :: forall u <- votes :: u.id != v.id
    ensures multiset(Passed(CompleteSignalVotes(votes))) <= multiset(Passed(votes))
  {
    var r := CompleteSignalVotes(votes);
    forall k | 0 <= k < |r| ensures r[k].id == VOTE_SPECS[k].id && (r[k] !in votes ==> !r[k].passed && forall u <- votes :: u.id != r[k].id) {
      assert r[k] == CompleteVote(votes, VOTE_SPECS[k]);
    }
    FullPanelDistinct(r);
    PassedWithin(r, votes);
  }

  lemma PassedWithin(votes: seq<Vote>, others: seq<Vote>)
    requires DistinctIds(votes) && forall v <- votes | v.passed :: v in others
    ensures multiset(Passed(votes)) <= multiset(Passed(others))
  {
    forall v ensures multiset(Passed(votes))[v] <= multiset(Passed(others))[v] {
      DistinctPassedOnce(votes, v);
      PassedMembers(votes);
      PassedMembers(others);
    }
  }

  lemma {:induction false} DistinctPassedOnce(votes: seq<Vote>, v: Vote)
    requires DistinctIds(votes)
    ensures multiset(Passed(votes))[v] <= if v in votes then 1 else 0
    decreases |votes|
  {
    if votes != [] {
      var n := |votes| - 1;
      LastIsNew(votes);
      DistinctPassedOnce(votes[..n], v);
      LastApart(votes);
    }
  }

  lemma LastIsNew(votes: seq<Vote>)
    requires DistinctIds(votes) && votes != []
    ensures votes[|votes| - 1] !in votes[..|votes| - 1]
  {
  }

  /** A panel that is full already is left alone, so completing twice is completing once. */
  lemma CompleteFull(votes: seq<Vote>)
    requires FullPanel(votes)
    ensures CompleteSignalVotes(votes) == votes
  {
    FullPanelDistinct(votes);
    forall k | 0 <= k < |votes| ensures CompleteSignalVotes(votes)[k] == votes[k] {
      OnlyVoteById(votes, votes[k]);
    }
  }

  lemma CompleteIdempotent(votes: seq<Vote>)
    ensures CompleteSignalVotes(CompleteSignalVotes(votes)) == CompleteSignalVotes(votes)
  {
    CompletedPanel(votes);
    CompleteFull(CompleteSignalVotes(votes));
  }

  /** Votes with known, distinct ids all survive, so the support does not change. */
  lemma CompletionKeepsSupport(votes: seq<Vote>)
    requires DistinctIds(votes) && forall v <- votes :: exists k | 0 <= k < |VOTE_SPECS| :: VOTE_SPECS[k].id == v.id
    ensures multiset(Passed(CompleteSignalVotes(votes))) == multiset(Passed(votes))
    ensures forall v <- votes :: v in CompleteSignalVotes(votes)
  {
    CompletedPanel(votes);
    var r := CompleteSignalVotes(votes);
    forall v | v in votes ensures v in r {
      var k :| 0 <= k < |VOTE_SPECS| && VOTE_SPECS[k].id == v.id;
      OnlyVoteById(votes, v);
      assert r[k] == v;
    }
    PassedWithin(votes, r);
  }

  // ---------- a row of the signals table ----------

  /** A recommendation with structured votes keeps them; an older one gets votes from its rationale. */
  method RecommendationToSignal(lower: string -> string, rec: Recommendation)
    returns (row: SignalRow, ghost picks: seq<Option<nat>>)
    requires IsCaseMap(lower)
    ensures row.ticker == rec.ticker && row.name == rec.name && row.sector == rec.sector && row.score == rec.score
    ensures row.sentiment7d == rec.sentiment7d && row.computedAt == rec.computedAt
    ensures row.signal.Bullish? <==> rec.score >= 4.0
    ensures FullPanel(row.votes) && row.supportingVotes == |Passed(row.votes)| <= 7
    ensures rec.votes.Some? && rec.votes.value != [] ==>
      row.votes == CompleteSignalVotes(rec.votes.value) && row.supportingVotes <= |Passed(rec.votes.value)|
    ensures rec.votes.None? || rec.votes.value == [] ==>
      var lines := if rec.rationale.Some? then rec.rationale.value else [];
      AllBacked(lower, lines, row.votes, picks) && row.supportingVotes <= |lines|
  {
    var votes: seq<Vote>;
    if rec.votes.Some? && rec.votes.value != [] {
      votes, picks := rec.votes.value, [];
    } else {
      var lines := if rec.rationale.Some? then rec.rationale.value else [];
      votes, picks := VotesFromRationale(lower, lines);
      RationalePanel(lower, lines, votes, picks);
    }
    CompletedPanel(votes);
    var full := CompleteSignalVotes(votes);
    PassedCount(full, votes);
    row := SignalRow(rec.ticker, rec.name, rec.sector, rec.score, ClassifySignal(rec.score), full,
                     |Passed(full)|, rec.sentiment7d, rec.computedAt);
  }

  lemma RationalePanel(lower: string -> string, lines: seq<string>, votes: seq<Vote>, picks: seq<Option<nat>>)
    requires AllBacked(lower, lines, votes, picks) && |votes| == |VOTE_SPECS|
    ensures CompleteSignalVotes(votes) == votes && |Passed(votes)| <= |lines|
  {
    forall k | 0 <= k < |votes| ensures votes[k].id == VOTE_SPECS[k].id {
      assert VoteBacked(lower, lines, votes[k], VOTE_SPECS[k], picks[k], picks[..k]);
    }
    CompleteFull(votes);
    SupportBounded(lower, lines, votes, picks);
  }

  lemma PassedCount(full: seq<Vote>, votes: seq<Vote>)
    requires multiset(Passed(full)) <= multiset(Passed(votes)) && FullPanel(full)
    ensures |Passed(full)| <= |Passed(votes)| && |Passed(full)| <= 7
  {
    var extra := multiset(Passed(votes)) - multiset(Passed(full));
    assert multiset(Passed(votes)) == multiset(Passed(full)) + extra;
    assert |multiset(Passed(votes))| == |multiset(Passed(full))| + |extra|;
    PassedMembers(full);
  }

  // ---------- filter and order ----------

  datatype SortKey = ByScore | ByTicker | BySentiment | ByUpdated

  /** `signal` is None for "all"; an empty sector or a blank query filters nothing. */
  function FilterSignals(upper: string -> string, rows: seq<SignalRow>, signal: Option<SignalClass>,
                         sector: Option<string>, query: Option<string>): seq<SignalRow> {
    var needle := if query.Some? then upper(Trim(query.value)) else "";
    Filter((row: SignalRow) => Keeps(upper, signal, sector, needle, row), rows)
  }

  predicate Keeps(upper: string -> string, signal: Option<SignalClass>, sector: Option<string>, needle: string, row: SignalRow) {
    && (signal.Some? ==> row.signal == signal.value)
    && (sector.Some? && sector.value != "" ==> row.sector == sector)
    && (needle != "" ==> Includes(row.ticker, needle) || Includes(upper(row.name), needle))
  }

  function TickerOrder(collate: Comparator<string>): Comparator<SignalRow> {
    (a: SignalRow, b: SignalRow) => collate(a.ticker, b.ticker)
  }

  function UpdatedOrder(collate: Comparator<string>): Comparator<SignalRow> {
    (a: SignalRow, b: SignalRow) => collate(a.computedAt, b.computedAt)
  }

  function ScoreOrder(collate: Comparator<string>, dir: Direction): Comparator<SignalRow> {
    (a: SignalRow, b: SignalRow) =>
      if a.score != b.score then (a.score - b.score) * Factor(dir) else collate(a.ticker, b.ticker)
  }

  function SignalOrder(collate: Comparator<string>, sort: SortKey, dir: Direction): Comparator<SignalRow> {
    match sort
    case ByTicker => Directed(TickerOrder(collate), dir)
    case BySentiment => BlanksLast((r: SignalRow) => r.sentiment7d, TickerOrder(collate), dir)
    case ByUpdated => Directed(UpdatedOrder(collate), dir)
    case ByScore => ScoreOrder(collate, dir)
  }

  function SortSignals(collate: Comparator<string>, rows: seq<SignalRow>, sort: SortKey, dir: Direction): seq<SignalRow> {
    Sort(SignalOrder(collate, sort, dir), rows)
  }

  lemma TextOrdersPreorder(collate: Comparator<string>)
    requires TotalPreorder(collate)
    ensures TotalPreorder(TickerOrder(collate)) && TotalPreorder(UpdatedOrder(collate))
  {
    var t, u := TickerOrder(collate), UpdatedOrder(collate);
    forall x, y ensures (t(x, y) < 0.0 <==> t(y, x) > 0.0) && (u(x, y) < 0.0 <==> u(y, x) > 0.0) {
      assert collate(x.ticker, y.ticker) < 0.0 <==> collate(y.ticker, x.ticker) > 0.0;
      assert collate(x.computedAt, y.computedAt) < 0.0 <==> collate(y.computedAt, x.computedAt) > 0.0;
    }
    forall x, y, z | t(x, y) <= 0.0 && t(y, z) <= 0.0 ensures t(x, z) <= 0.0 {
      assert collate(x.ticker, y.ticker) <= 0.0 && collate(y.ticker, z.ticker) <= 0.0;
    }
    forall x, y, z | u(x, y) <= 0.0 && u(y, z) <= 0.0 ensures u(x, z) <= 0.0 {
      assert collate(x.computedAt, y.computedAt) <= 0.0 && collate(y.computedAt, z.computedAt) <= 0.0;
    }
  }

  lemma ScoreOrderPreorder(collate: Comparator<string>, dir: Direction)
    requires TotalPreorder(collate)
    ensures TotalPreorder(ScoreOrder(collate, dir))
  {
    var d := ScoreOrder(collate, dir);
    forall x, y ensures d(x, y) < 0.0 <==> d(y, x) > 0.0 {
      assert collate(x.ticker, y.ticker) < 0.0 <==> collate(y.ticker, x.ticker) > 0.0;
    }
    forall x, y, z | d(x, y) <= 0.0 && d(y, z) <= 0.0 ensures d(x, z) <= 0.0 {
      assert collate(x.ticker, y.ticker) <= 0.0 && collate(y.ticker, z.ticker) <= 0.0 ==> collate(x.ticker, z.ticker) <= 0.0;
    }
  }

  lemma SignalOrderPreorder(collate: Comparator<string>, sort: SortKey, dir: Direction)
    requires TotalPreorder(collate)
    ensures TotalPreorder(SignalOrder(collate, sort, dir))
  {
    TextOrdersPreorder(collate);
    match sort
    case ByTicker => DirectedPreorder(TickerOrder(collate), dir);
    case BySentiment => BlanksLastPreorder((r: SignalRow) => r.sentiment7d, TickerOrder(collate), dir);
    case ByUpdated => DirectedPreorder(UpdatedOrder(collate), dir);
    case ByScore => ScoreOrderPreorder(collate, dir);
  }

  /** The sorted copy is the one stable ordered permutation of the rows. */
  lemma SortSignalsIsTheStableSort(collate: Comparator<string>, rows: seq<SignalRow>, sort: SortKey, dir: Direction, r: seq<SignalRow>)
    requires TotalPreorder(collate)
    ensures multiset(SortSignals(collate, rows, sort, dir)) == multiset(rows)
    ensures r == SortSignals(collate, rows, sort, dir) <==> IsStableSort(SignalOrder(collate, sort, dir), rows, r)
  {
    SignalOrderPreorder(collate, sort, dir);
    SortIsStable(SignalOrder(collate, sort, dir), rows);
    if IsStableSort(SignalOrder(collate, sort, dir), rows, r) {
      StableSortUnique(SignalOrder(collate, sort, dir), r, SortSignals(collate, rows, sort, dir));
    }
  }

  /** Rows without sentiment come last in either direction, by ticker. */
  lemma SentimentBlanksLast(collate: Comparator<string>, rows: seq<SignalRow>, dir: Direction)
    requires TotalPreorder(collate)
    ensures ColumnShown((r: SignalRow) => r.sentiment7d, TickerOrder(collate), dir, SortSignals(collate, rows, BySentiment, dir))
  {
    SignalOrderPreorder(collate, BySentiment, dir);
    SortOrdered(SignalOrder(collate, BySentiment, dir), rows);
    OrderedColumn((r: SignalRow) => r.sentiment7d, TickerOrder(collate), dir, SortSignals(collate, rows, BySentiment, dir));
  }

  /** Scores run in the direction asked for; equal scores run by ticker, always ascending. */
  lemma ScoresInOrder(collate: Comparator<string>, rows: seq<SignalRow>, dir: Direction, i: nat, j: nat)
    requires TotalPreorder(collate) && i < j < |SortSignals(collate, rows, ByScore, dir)|
    ensures var r := SortSignals(collate, rows, ByScore, dir);
            && (if dir.Asc? then r[i].score <= r[j].score else r[i].score >= r[j].score)
            && (r[i].score == r[j].score ==> collate(r[i].ticker, r[j].ticker) <= 0.0)
  {
    var r := SortSignals(collate, rows, ByScore, dir);
    SignalOrderPreorder(collate, ByScore, dir);
    SortOrdered(SignalOrder(collate, ByScore, dir), rows);
    assert SignalOrder(collate, ByScore, dir)(r[i], r[j]) <= 0.0;
    assert r[i].score != r[j].score ==> SignalOrder(collate, ByScore, dir)(r[i], r[j]) == (r[i].score - r[j].score) * Factor(dir);
    assert r[i].score == r[j].score ==> SignalOrder(collate, ByScore, dir)(r[i], r[j]) == collate(r[i].ticker, r[j].ticker);
  }

  /** The page may filter before it sorts or after: it shows the same table. */
  lemma FilterThenSort(collate: Comparator<string>, upper: string -> string, rows: seq<SignalRow>, signal: Option<SignalClass>,
                       sector: Option<string>, query: Option<string>, sort: SortKey, dir: Direction)
    requires TotalPreorder(collate)
    ensures SortSignals(collate, FilterSignals(upper, rows, signal, sector, query), sort, dir)
         == FilterSignals(upper, SortSignals(collate, rows, sort, dir), signal, sector, query)
  {
    SignalOrderPreorder(collate, sort, dir);
    var needle := if query.Some? then upper(Trim(query.value)) else "";
    SortFilterCommute(SignalOrder(collate, sort, dir), (row: SignalRow) => Keeps(upper, signal, sector, needle, row), rows);
  }

  /** By ticker or time of computing, rows run in the direction asked for. */
  lemma TextColumnsInOrder(collate: Comparator<string>, rows: seq<SignalRow>, dir: Direction, i: nat, j: nat)
    requires TotalPreorder(collate) && i < j < |rows|
    ensures var r, t := SortSignals(collate, rows, ByTicker, dir), SortSignals(collate, rows, ByUpdated, dir);
            && |r| == |t| == |rows|
            && (if dir.Asc? then collate(r[i].ticker, r[j].ticker) <= 0.0 else collate(r[j].ticker, r[i].ticker) <= 0.0)
            && (if dir.Asc? then collate(t[i].computedAt, t[j].computedAt) <= 0.0 else collate(t[j].computedAt, t[i].computedAt) <= 0.0)
  {
    TextOrdersPreorder(collate);
    DirectedInOrder(TickerOrder(collate), dir, rows, i, j);
    DirectedInOrder(UpdatedOrder(collate), dir, rows, i, j);
  }

  ghost predicate Mentions(s: string, part: string) {
    exists lead: string, trail: string :: s == lead + part + trail
  }

  /** A row stays exactly when it is of the class asked for, of the sector asked for, and
      mentions the query somewhere in its ticker or name; an empty sector and a blank
      query ask for nothing. */
  lemma FilterKeepsExactly(upper: string -> string, rows: seq<SignalRow>, signal: Option<SignalClass>,
                           sector: Option<string>, query: Option<string>, row: SignalRow)
    requires IsCaseMap(upper)
    ensures row in FilterSignals(upper, rows, signal, sector, query) <==>
              && row in rows
              && (signal == None || signal == Some(row.signal))
              && (sector == None || sector == Some("") || sector == row.sector)
              && (query == None || Trim(query.value) == ""
                  || Mentions(row.ticker, upper(Trim(query.value))) || Mentions(upper(row.name), upper(Trim(query.value))))
  {
    var needle := if query.Some? then upper(Trim(query.value)) else "";
    FilterMembers((r: SignalRow) => Keeps(upper, signal, sector, needle, r), rows);
    IncludesSomewhere(row.ticker, needle);
    IncludesSomewhere(upper(row.name), needle);
    assert row in FilterSignals(upper, rows, signal, sector, query) <==> row in rows && Keeps(upper, signal, sector, needle, row);
  }

  /** Rows of one sentiment, or computed at one time, keep the order they came in. */
  lemma EqualRowsKeepOrder(collate: Comparator<string>, rows: seq<SignalRow>, dir: Direction, x: real, t: string)
    requires TotalPreorder(collate)
    ensures Filter((r: SignalRow) => r.sentiment7d == Some(x), SortSignals(collate, rows, BySentiment, dir))
         == Filter((r: SignalRow) => r.sentiment7d == Some(x), rows)
    ensures Filter((r: SignalRow) => r.computedAt == t, SortSignals(collate, rows, ByUpdated, dir))
         == Filter((r: SignalRow) => r.computedAt == t, rows)
  {
    SignalOrderPreorder(collate, BySentiment, dir);
    SignalOrderPreorder(collate, ByUpdated, dir);
    SelfTied(collate, t);
    TiesKeepOrder(SignalOrder(collate, BySentiment, dir), (r: SignalRow) => r.sentiment7d == Some(x), rows);
    TiesKeepOrder(SignalOrder(collate, ByUpdated, dir), (r: SignalRow) => r.computedAt == t, rows);
  }

  // ---------- the seven votes ----------

  /** Which text in a rationale line stands for which vote. */
  lemma VoteTable()
    ensures |VOTE_SPECS| == 7
    ensures VOTE_SPECS[0] == VoteSpec("below_mean", "Below historical mean", "Below historical mean")
    ensures VOTE_SPECS[1] == VoteSpec("below_median", "Below historical median", "Below historical median")
    ensures VOTE_SPECS[2] == VoteSpec("within_one_stdev", "Within 1 stdev below mean", "Within 1 stdev below mean")
    ensures VOTE_SPECS[3] == VoteSpec("volume_above_mean", "Volume above average", "Volume above average")
    ensures VOTE_SPECS[4] == VoteSpec("recent_uptrend", "3-bar uptrend", "uptrend")
    ensures VOTE_SPECS[5] == VoteSpec("positive_slope", "Positive 5-bar slope", "-bar slope")
    ensures VOTE_SPECS[6] == VoteSpec("positive_sentiment", "Positive news sentiment", "Positive news sentiment")
  {
  }

  /** The line about a vote and about no other vote backs it, and a vote no line is about
      fails: when every line is about one vote and no vote has two lines, the votes are
      read off the lines. */
  lemma OneLinePerVote(lower: string -> string, lines: seq<string>, votes: seq<Vote>, picks: seq<Option<nat>>, k: nat)
    requires AllBacked(lower, lines, votes, picks) && k < |votes|
    requires forall i: nat, l: nat, m: nat | i < |lines| && l < |votes| && m < |votes|
               && AboutVote(lower, lines, i, l) && AboutVote(lower, lines, i, m) :: l == m
    requires forall i: nat, j: nat | i < |lines| && j < |lines| && AboutVote(lower, lines, i, k) && AboutVote(lower, lines, j, k) :: i == j
    ensures votes[k].passed <==> exists i: nat :: i < |lines| && AboutVote(lower, lines, i, k)
    ensures forall i: nat | i < |lines| && AboutVote(lower, lines, i, k) :: votes[k].detail == lines[i]
    ensures !votes[k].passed ==> votes[k].detail == VOTE_SPECS[k].caption + " did not contribute to this score"
  {
    assert VoteBacked(lower, lines, votes[k], VOTE_SPECS[k], picks[k], picks[..k]);
    forall i: nat | i < |lines| && AboutVote(lower, lines, i, k) ensures Some(i) !in picks[..k] {
      if Some(i) in picks[..k] {
        var l: nat :| l < k && picks[..k][l] == Some(i);
        assert VoteBacked(lower, lines, votes[l], VOTE_SPECS[l], picks[l], picks[..l]);
        assert AboutVote(lower, lines, i, l);
      }
    }
    if picks[k].Some? {
      assert AboutVote(lower, lines, picks[k].value, k);
    }
  }

  /** The line mentions the text that stands for the vote, in whatever case. */
  ghost predicate AboutVote(lower: string -> string, lines: seq<string>, i: nat, k: nat)
    requires i < |lines| && k < |VOTE_SPECS|
  {
    Includes(lower(lines[i]), lower(VOTE_SPECS[k].needle))
  }

  /** Of several votes with an id the last is shown; for an id without one an explicit failure. */
  lemma {:induction false} LastVoteShown(votes: seq<Vote>, k: nat)
    requires k < |VOTE_SPECS|
    ensures forall i: nat | i < |votes| && votes[i].id == VOTE_SPECS[k].id && (forall j | i < j < |votes| :: votes[j].id != votes[i].id) ::
              CompleteSignalVotes(votes)[k] == votes[i]
    ensures (forall v <- votes :: v.id != VOTE_SPECS[k].id) ==>
              CompleteSignalVotes(votes)[k]
              == Vote(VOTE_SPECS[k].id, VOTE_SPECS[k].caption, false, VOTE_SPECS[k].caption + " did not contribute to this score")
  {
    forall i: nat | i < |votes| && votes[i].id == VOTE_SPECS[k].id && (forall j | i < j < |votes| :: votes[j].id != votes[i].id)
      ensures CompleteSignalVotes(votes)[k] == votes[i]
    {
      LastById(votes, i);
    }
    assert CompleteSignalVotes(votes)[k] == CompleteVote(votes, VOTE_SPECS[k]);
  }

  lemma {:induction false} LastById(votes: seq<Vote>, i: nat)
    requires i < |votes| && forall j | i < j < |votes| :: votes[j].id != votes[i].id
    ensures VoteById(votes, votes[i].id) == Some(votes[i])
    decreases |votes|
  {
    if i < |votes| - 1 {
      LastById(votes[..|votes| - 1], i);
    }
  }
}
