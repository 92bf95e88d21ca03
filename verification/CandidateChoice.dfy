/**
  Scoring and choosing the Skill candidates that an optimizer run returns.
  Numbers are reals; a module is the function from prompts to answers that it
  is at the time of the run.
 */
module CandidateChoice {
  import opened Wrappers

  // ----- scores ------------------------------------------------------------

  /** How text is cut into words: lower case, and which characters belong to a word. */
  datatype Words = Words(lower: string -> string, isWord: char -> bool)

  /** The length of the run of word characters at the start. */
  function Run(s: string, w: Words): (n: nat)
    ensures n <= |s|
  {
    if s == [] || !w.isWord(s[0]) then 0 else 1 + Run(s[1..], w)
  }

  /** The runs of at least two word characters. */
  function Tokens(s: string, w: Words): set<string>
    decreases |s|
  {
    if s == [] then {}
    else
      var n := Run(s, w);
      if n == 0 then Tokens(s[1..], w)
      else (if n >= 2 then {s[..n]} else {}) + Tokens(s[n..], w)
  }

  function TokenOverlap(answer: string, expected: string, w: Words): (r: real)
    ensures 0.0 <= r <= 1.0
  {
    var given, wanted := Tokens(w.lower(answer), w), Tokens(w.lower(expected), w);
    if wanted == {} then 0.0
    else
      CommonIsPart(given, wanted);
      |given * wanted| as real / |wanted| as real
  }

  lemma CommonIsPart(given: set<string>, wanted: set<string>)
    requires wanted != {}
    ensures 0 < |wanted| && 0.0 <= |given * wanted| as real / |wanted| as real <= 1.0
  {
    SubsetIsSmaller(given * wanted, wanted);
    var a, b := |given * wanted| as real, |wanted| as real;
    assert a / b <= b / b;
  }

  lemma {:induction false} SubsetIsSmaller(a: set<string>, b: set<string>)
    requires a <= b
    ensures |a| <= |b|
  {
    if a != {} {
      var x :| x in a;
      SubsetIsSmaller(a - {x}, b - {x});
    }
  }

  /** `x` stands in `s` as a whole run of at least two word characters. */
  ghost predicate IsWordOf(x: string, s: string, w: Words) {
    exists i: nat, j: nat :: StandsAt(s, i, j, w) && s[i..j] == x
  }

  ghost predicate StandsAt(s: string, i: nat, j: nat, w: Words) {
    && i + 2 <= j <= |s| && (forall k | i <= k < j :: w.isWord(s[k]))
    && (i == 0 || !w.isWord(s[i - 1])) && (j == |s| || !w.isWord(s[j]))
  }

  lemma {:induction false} RunIsMaximal(s: string, w: Words)
    ensures forall k | 0 <= k < Run(s, w) :: w.isWord(s[k])
    ensures Run(s, w) == |s| || !w.isWord(s[Run(s, w)])
  {
    if s != [] && w.isWord(s[0]) {
      RunIsMaximal(s[1..], w);
    }
  }

  /** Behind the first run, or the first character that is in none, the words are those of the rest. */
  lemma WordsOfRest(s: string, n: nat, x: string, w: Words)
    requires 0 < n <= |s| && (!w.isWord(s[n - 1]) || n == |s| || !w.isWord(s[n]))
    ensures IsWordOf(x, s[n..], w) <==> exists i: nat, j: nat :: n <= i && StandsAt(s, i, j, w) && s[i..j] == x
  {
    var rest := s[n..];
    if i: nat, j: nat :| StandsAt(rest, i, j, w) && rest[i..j] == x {
      StandsBehind(s, n, i, j, w);
    }
    if i: nat, j: nat :| n <= i && StandsAt(s, i, j, w) && s[i..j] == x {
      StandsBehind(s, n, i - n, j - n, w);
    }
  }

  lemma StandsBehind(s: string, n: nat, i: nat, j: nat, w: Words)
    requires 0 < n <= |s| && (!w.isWord(s[n - 1]) || n == |s| || !w.isWord(s[n]))
    ensures StandsAt(s[n..], i, j, w) <==> StandsAt(s, i + n, j + n, w)
    ensures i <= j <= |s| - n ==> s[n..][i..j] == s[i + n..j + n]
  {
    var rest := s[n..];
    if j <= |rest| {
      assert forall k | i <= k < j :: rest[k] == s[k + n];
      assert forall k | i + n <= k < j + n :: s[k] == rest[k - n];
    }
  }

  /** The tokens are exactly the words of the text. */
  lemma {:induction false} TokensAreWords(s: string, x: string, w: Words)
    ensures x in Tokens(s, w) <==> IsWordOf(x, s, w)
    decreases |s|
  {
    if s != [] {
      var n := Run(s, w);
      RunIsMaximal(s, w);
      var m := if n == 0 then 1 else n;
      TokensAreWords(s[m..], x, w);
      WordsOfRest(s, m, x, w);
      FirstWord(s, x, w);
    }
  }

  lemma FirstWord(s: string, x: string, w: Words)
    requires s != []
    ensures var n := Run(s, w); var m := if n == 0 then 1 else n;
            IsWordOf(x, s, w) <==>
            || (n >= 2 && x == s[..n])
            || (exists i: nat, j: nat :: m <= i && StandsAt(s, i, j, w) && s[i..j] == x)
  {
    var n := Run(s, w);
    RunIsMaximal(s, w);
    if n >= 2 { assert StandsAt(s, 0, n, w) && s[0..n] == s[..n]; }
    if i: nat, j: nat :| StandsAt(s, i, j, w) && s[i..j] == x && i < if n == 0 then 1 else n {
      assert i == 0 && j == n;
      assert s[0..n] == s[..n];
    }
  }

  function Min(a: real, b: real): real { if a < b then a else b }
  function Max(a: real, b: real): real { if a < b then b else a }

  /** The score before it is clamped to 0..100. */
  function RawScore(answer: string, expected: string, w: Words): real {
    45.0 + TokenOverlap(answer, expected, w) * 45.0 + (if |answer| < 400 then |answer| else 400) as real / 400.0 * 10.0
  }

  function Score(answer: string, expected: string, w: Words): real {
    Max(0.0, Min(100.0, RawScore(answer, expected, w)))
  }

  /** Every score lies between 45 and 100, so clamping never changes one. */
  lemma ScoreIsBounded(answer: string, expected: string, w: Words)
    ensures 45.0 <= Score(answer, expected, w) <= 100.0
    ensures Score(answer, expected, w) == RawScore(answer, expected, w)
  {
    var overlap := TokenOverlap(answer, expected, w);
    assert 0.0 <= overlap * 45.0 <= 45.0;
  }

  /** The score by the words alone: 45, up to 45 for the share of the expected words given, and up to 10 for 400 characters. */
  lemma ScoreIsShare(answer: string, expected: string, w: Words, wanted: set<string>, common: set<string>)
    requires forall x :: x in wanted <==> IsWordOf(x, w.lower(expected), w)
    requires forall x :: x in common <==> x in wanted && IsWordOf(x, w.lower(answer), w)
    ensures var share := if wanted == {} then 0.0 else |common| as real / |wanted| as real;
            var length := if |answer| < 400 then |answer| else 400;
            0.0 <= share <= 1.0 && Score(answer, expected, w) == 45.0 + share * 45.0 + length as real / 40.0
  {
    forall x ensures x in wanted <==> x in Tokens(w.lower(expected), w) { TokensAreWords(w.lower(expected), x, w); }
    forall x ensures x in common <==> x in wanted && x in Tokens(w.lower(answer), w) { TokensAreWords(w.lower(answer), x, w); }
    assert wanted == Tokens(w.lower(expected), w);
    assert common == Tokens(w.lower(answer), w) * wanted;
    ScoreIsBounded(answer, expected, w);
  }

  // ----- one candidate -----------------------------------------------------

  datatype Split = Train | Validation | Holdout | Unknown

  datatype Example = Example(id: string, split: Split, prompt: string, expected: string)

  type Answers = string -> string

  datatype Evaluation = Evaluation(split: Split, score: real, regression: bool)

  function ScoreOf(answers: Answers, e: Example, w: Words): real { Score(answers(e.prompt), e.expected, w) }

  /** The baseline of each id; of several examples with one id the last counts. */
  function Baselines(student: Answers, examples: seq<Example>, w: Words): map<string, real> {
    if examples == [] then map[]
    else
      var last := examples[|examples| - 1];
      Baselines(student, examples[..|examples| - 1], w)[last.id := ScoreOf(student, last, w)]
  }

  /** The last example with the id is at `i`. */
  predicate IsLast(examples: seq<Example>, i: nat, id: string) {
    i < |examples| && examples[i].id == id && forall j | i < j < |examples| :: examples[j].id != id
  }

  lemma LastInFront(examples: seq<Example>, i: nat, id: string)
    requires IsLast(examples, i, id) && i < |examples| - 1
    ensures IsLast(examples[..|examples| - 1], i, id) && examples[|examples| - 1].id != id
    ensures examples[..|examples| - 1][i] == examples[i]
  {
  }

  lemma BaselineOfMore(student: Answers, examples: seq<Example>, w: Words)
    requires examples != []
    ensures var front, last := examples[..|examples| - 1], examples[|examples| - 1];
            Baselines(student, examples, w) == Baselines(student, front, w)[last.id := ScoreOf(student, last, w)]
  {
  }

  /** The baseline of an id is the score of the last example with the id. */
  lemma {:induction false} BaselineIsLast(student: Answers, examples: seq<Example>, w: Words, id: string, i: nat)
    requires IsLast(examples, i, id)
    ensures id in Baselines(student, examples, w)
    ensures Baselines(student, examples, w)[id] == ScoreOf(student, examples[i], w)
  {
    BaselineOfMore(student, examples, w);
    if i < |examples| - 1 {
      LastInFront(examples, i, id);
      BaselineIsLast(student, examples[..|examples| - 1], w, id, i);
    }
  }

  /** Only the ids of examples have a baseline. */
  lemma {:induction false} BaselinesHaveExamples(student: Answers, examples: seq<Example>, w: Words, id: string)
    requires id in Baselines(student, examples, w)
    ensures exists i | 0 <= i < |examples| :: examples[i].id == id
  {
    BaselineOfMore(student, examples, w);
    if examples[|examples| - 1].id != id {
      var front := examples[..|examples| - 1];
      BaselinesHaveExamples(student, front, w, id);
      var i :| 0 <= i < |front| && front[i].id == id;
      assert examples[i].id == id;
    }
  }

  predicate Regresses(answers: Answers, e: Example, baselines: map<string, real>, w: Words) {
    e.split.Holdout? && e.id in baselines && ScoreOf(answers, e, w) < baselines[e.id] - 20.0
  }

  function Evaluate(answers: Answers, examples: seq<Example>, baselines: map<string, real>, w: Words): seq<Evaluation> {
    if examples == [] then []
    else
      var e := examples[|examples| - 1];
      Evaluate(answers, examples[..|examples| - 1], baselines, w)
      + (if e.split.Unknown? then []
         else [Evaluation(e.split, ScoreOf(answers, e, w), Regresses(answers, e, baselines, w))])
  }

  function HoldoutSum(evaluations: seq<Evaluation>): real {
    if evaluations == [] then 0.0
    else
      var e := evaluations[|evaluations| - 1];
      HoldoutSum(evaluations[..|evaluations| - 1]) + if e.split.Holdout? then e.score else 0.0
  }

  function HoldoutCount(evaluations: seq<Evaluation>): nat {
    if evaluations == [] then 0
    else HoldoutCount(evaluations[..|evaluations| - 1]) + if evaluations[|evaluations| - 1].split.Holdout? then 1 else 0
  }

  function HoldoutScore(evaluations: seq<Evaluation>): real {
    HoldoutSum(evaluations) / (if HoldoutCount(evaluations) == 0 then 1 else HoldoutCount(evaluations)) as real
  }

  predicate AnyRegression(evaluations: seq<Evaluation>) {
    exists i :: 0 <= i < |evaluations| && evaluations[i].regression
  }

  /** A candidate regresses exactly when some holdout example with a baseline lost more than 20 points. */
  lemma {:induction false} RegressionIsExact(answers: Answers, examples: seq<Example>, baselines: map<string, real>, w: Words)
    ensures AnyRegression(Evaluate(answers, examples, baselines, w)) <==>
              exists i :: 0 <= i < |examples| && Regresses(answers, examples[i], baselines, w)
  {
    if examples != [] {
      var front, e := examples[..|examples| - 1], examples[|examples| - 1];
      RegressionIsExact(answers, front, baselines, w);
      var before, all := Evaluate(answers, front, baselines, w), Evaluate(answers, examples, baselines, w);
      if AnyRegression(all) && !AnyRegression(before) {
        assert Regresses(answers, examples[|examples| - 1], baselines, w);
      }
      if i :| 0 <= i < |examples| && Regresses(answers, examples[i], baselines, w) {
        if i == |examples| - 1 {
          assert all[|all| - 1].regression;
        } else {
          assert front[i] == examples[i];
          var k :| 0 <= k < |before| && before[k].regression;
          assert all[k] == before[k];
        }
      }
    }
  }

  function Sum(xs: seq<real>): real {
    if xs == [] then 0.0 else Sum(xs[..|xs| - 1]) + xs[|xs| - 1]
  }

  /** The indices of the holdout examples, in order. */
  ghost predicate Picks(examples: seq<Example>, picks: seq<nat>) {
    && (forall a, b | 0 <= a < b < |picks| :: picks[a] < picks[b])
    && (forall i: nat :: i in picks <==> i < |examples| && examples[i].split.Holdout?)
  }

  lemma PicksOfMore(examples: seq<Example>, picks: seq<nat>)
    requires examples != [] && Picks(examples[..|examples| - 1], picks)
    ensures examples[|examples| - 1].split.Holdout? ==> Picks(examples, picks + [|examples| - 1])
    ensures !examples[|examples| - 1].split.Holdout? ==> Picks(examples, picks)
  {
    var m := |examples| - 1;
    forall a | 0 <= a < |picks| ensures picks[a] < m {
      assert picks[a] in picks;
    }
    var more := picks + [m];
    forall i: nat ensures i in more <==> i in picks || i == m {
      assert more[|picks|] == m;
    }
  }

  lemma EvaluationsOfMore(answers: Answers, examples: seq<Example>, baselines: map<string, real>, w: Words)
    requires examples != []
    ensures var before := Evaluate(answers, examples[..|examples| - 1], baselines, w);
            var all, e := Evaluate(answers, examples, baselines, w), examples[|examples| - 1];
            && HoldoutSum(all) == HoldoutSum(before) + (if e.split.Holdout? then ScoreOf(answers, e, w) else 0.0)
            && HoldoutCount(all) == HoldoutCount(before) + (if e.split.Holdout? then 1 else 0)
  {
    var before := Evaluate(answers, examples[..|examples| - 1], baselines, w);
    var all, e := Evaluate(answers, examples, baselines, w), examples[|examples| - 1];
    if e.split.Unknown? {
      assert all == before;
    } else {
      assert all[..|all| - 1] == before;
    }
  }

  lemma {:induction false} HoldoutIsSum(answers: Answers, examples: seq<Example>, baselines: map<string, real>, w: Words)
    returns (picks: seq<nat>, scores: seq<real>)
    ensures Picks(examples, picks) && |scores| == |picks|
    ensures forall k | 0 <= k < |picks| :: picks[k] in picks && scores[k] == ScoreOf(answers, examples[picks[k]], w)
    ensures HoldoutSum(Evaluate(answers, examples, baselines, w)) == Sum(scores)
    ensures HoldoutCount(Evaluate(answers, examples, baselines, w)) == |scores|
  {
    picks, scores := [], [];
    if examples != [] {
      var front, e := examples[..|examples| - 1], examples[|examples| - 1];
      var before, beforeScores := HoldoutIsSum(answers, front, baselines, w);
      picks, scores := before, beforeScores;
      PicksOfMore(examples, before);
      EvaluationsOfMore(answers, examples, baselines, w);
      forall k | 0 <= k < |before| ensures picks[k] in picks && scores[k] == ScoreOf(answers, examples[picks[k]], w) {
        assert before[k] in before && examples[before[k]] == front[before[k]];
      }
      if e.split.Holdout? {
        picks, scores := before + [|examples| - 1], beforeScores + [ScoreOf(answers, e, w)];
        assert scores[..|scores| - 1] == beforeScores;
      }
    }
  }

  /** The holdout score is the mean of the scores of exactly the holdout examples; 0 where there is none. */
  lemma HoldoutScoreIsMean(answers: Answers, examples: seq<Example>, baselines: map<string, real>, w: Words)
    returns (picks: seq<nat>, scores: seq<real>)
    ensures Picks(examples, picks) && |scores| == |picks|
    ensures forall k | 0 <= k < |picks| :: picks[k] in picks && scores[k] == ScoreOf(answers, examples[picks[k]], w)
    ensures HoldoutScore(Evaluate(answers, examples, baselines, w)) == if scores == [] then 0.0 else Sum(scores) / |scores| as real
  {
    picks, scores := HoldoutIsSum(answers, examples, baselines, w);
  }

  predicate InBounds(evaluations: seq<Evaluation>) {
    forall i | 0 <= i < |evaluations| :: 45.0 <= evaluations[i].score <= 100.0
  }

  lemma {:induction false} HoldoutSumIsBounded(evaluations: seq<Evaluation>)
    requires InBounds(evaluations)
    ensures 45.0 * HoldoutCount(evaluations) as real <= HoldoutSum(evaluations) <= 100.0 * HoldoutCount(evaluations) as real
  {
    if evaluations != [] {
      HoldoutSumIsBounded(evaluations[..|evaluations| - 1]);
    }
  }

  lemma {:induction false} EvaluationsAreBounded(answers: Answers, examples: seq<Example>, baselines: map<string, real>, w: Words)
    ensures InBounds(Evaluate(answers, examples, baselines, w))
  {
    if examples != [] {
      var front, e := examples[..|examples| - 1], examples[|examples| - 1];
      EvaluationsAreBounded(answers, front, baselines, w);
      ScoreOfIsBounded(answers, e, w);
      var before := Evaluate(answers, front, baselines, w);
      if !e.split.Unknown? {
        var last := Evaluation(e.split, ScoreOf(answers, e, w), Regresses(answers, e, baselines, w));
        assert Evaluate(answers, examples, baselines, w) == before + [last];
      }
    }
  }

  lemma ScoreOfIsBounded(answers: Answers, e: Example, w: Words)
    ensures 45.0 <= ScoreOf(answers, e, w) <= 100.0
  {
    ScoreIsBounded(answers(e.prompt), e.expected, w);
  }

  lemma QuotientIsBounded(sum: real, count: real)
    requires count > 0.0 && 45.0 * count <= sum <= 100.0 * count
    ensures 45.0 <= sum / count <= 100.0
  {
  }

  /** The loop over the examples; the holdout score and the regression flag are read off its list. */
  method EvaluateCandidate(answers: Answers, examples: seq<Example>, baselines: map<string, real>, w: Words)
    returns (evaluations: seq<Evaluation>, holdoutScore: real, regression: bool)
    ensures evaluations == Evaluate(answers, examples, baselines, w)
    ensures holdoutScore == HoldoutScore(evaluations)
    ensures regression <==> exists i :: 0 <= i < |examples| && Regresses(answers, examples[i], baselines, w)
    ensures regression <==>
              exists i :: 0 <= i < |examples| && examples[i].split.Holdout? && examples[i].id in baselines
                          && Score(answers(examples[i].prompt), examples[i].expected, w) < baselines[examples[i].id] - 20.0
    ensures HoldoutCount(evaluations) > 0 ==> 45.0 <= holdoutScore <= 100.0
  {
    evaluations := [];
    for n := 0 to |examples|
      invariant evaluations == Evaluate(answers, examples[..n], baselines, w)
    {
      var e := examples[n];
      assert examples[..n + 1][..n] == examples[..n];
      if !e.split.Unknown? {
        evaluations := evaluations + [Evaluation(e.split, ScoreOf(answers, e, w), Regresses(answers, e, baselines, w))];
      }
    }
    assert examples[..|examples|] == examples;
    RegressionIsExact(answers, examples, baselines, w);
    EvaluationsAreBounded(answers, examples, baselines, w);
    HoldoutSumIsBounded(evaluations);
    if HoldoutCount(evaluations) > 0 {
      QuotientIsBounded(HoldoutSum(evaluations), HoldoutCount(evaluations) as real);
    }
    holdoutScore, regression := HoldoutScore(evaluations), AnyRegression(evaluations);
  }

  // ----- the choice --------------------------------------------------------

  /** One candidate of the run: its trimmed body, its answers, and its validation score if there is one. */
  datatype Candidate = Candidate(body: string, answers: Answers, validation: Option<real>)

  datatype Entry = Entry(index: nat, body: string, validation: Option<real>, holdout: real, regression: bool)

  const MAX_CANDIDATES := 8

  /** What candidates are ranked by; the index decides between equal scores. */
  function Rank(e: Entry): real { e.validation.GetOr(e.holdout) }

  predicate Above(a: Entry, b: Entry) { Rank(a) > Rank(b) || (Rank(a) == Rank(b) && a.index > b.index) }

  /** The higher validation score, or holdout score where there is none; among equal scores the later candidate. */
  predicate Outranks(a: Entry, b: Entry) {
    && (a.validation.Some? && b.validation.Some? ==>
          a.validation.value > b.validation.value || (a.validation.value == b.validation.value && a.index > b.index))
    && (a.validation.Some? && b.validation.None? ==>
          a.validation.value > b.holdout || (a.validation.value == b.holdout && a.index > b.index))
    && (a.validation.None? && b.validation.Some? ==>
          a.holdout > b.validation.value || (a.holdout == b.validation.value && a.index > b.index))
    && (a.validation.None? && b.validation.None? ==>
          a.holdout > b.holdout || (a.holdout == b.holdout && a.index > b.index))
  }

  predicate Ranked(entries: seq<Entry>) {
    forall i, j | 0 <= i < j < |entries| :: Outranks(entries[i], entries[j])
  }

  lemma BestFirstIsRanked(entries: seq<Entry>)
    requires BestFirst(entries)
    ensures Ranked(entries)
  {
    forall i, j | 0 <= i < j < |entries| ensures Outranks(entries[i], entries[j]) {
      assert Above(entries[i], entries[j]);
    }
  }

  function Bodies(entries: seq<Entry>): set<string> { set e | e in entries :: e.body }

  /** The entry of a candidate, given what evaluating it yields. */
  predicate IsEntryOf(e: Entry, candidates: seq<Candidate>, examples: seq<Example>, baselines: map<string, real>, w: Words) {
    && e.index < |candidates| && e.body == candidates[e.index].body != ""
    && e.validation == candidates[e.index].validation
    && var evaluations := Evaluate(candidates[e.index].answers, examples, baselines, w);
    && e.holdout == HoldoutScore(evaluations)
    && (e.regression <==> exists i :: 0 <= i < |examples| && Regresses(candidates[e.index].answers, examples[i], baselines, w))
  }

  /** No earlier candidate has the body. */
  predicate IsFirst(e: Entry, candidates: seq<Candidate>) {
    e.index < |candidates| && forall k | 0 <= k < e.index :: candidates[k].body != e.body
  }

  predicate IndexOrdered(entries: seq<Entry>) {
    forall i, j | 0 <= i < j < |entries| :: entries[i].index < entries[j].index && entries[i].body != entries[j].body
  }

  /** The entries of the first `n` candidates: one for every body, at its first occurrence. */
  ghost predicate Collected(entries: seq<Entry>, n: nat, candidates: seq<Candidate>, examples: seq<Example>,
                            baselines: map<string, real>, w: Words)
    requires n <= |candidates|
  {
    && |entries| <= n && IndexOrdered(entries)
    && (forall i | 0 <= i < |entries| :: IsEntryOf(entries[i], candidates, examples, baselines, w) && entries[i].index < n)
    && (forall k | 0 <= k < n && candidates[k].body != "" :: candidates[k].body in Bodies(entries))
    && (forall e | e in entries :: IsFirst(e, candidates))
  }

  lemma OldBodyAddsNothing(entries: seq<Entry>, n: nat, candidates: seq<Candidate>, examples: seq<Example>,
                           baselines: map<string, real>, w: Words)
    requires n < |candidates| && Collected(entries, n, candidates, examples, baselines, w)
    requires candidates[n].body == "" || candidates[n].body in Bodies(entries)
    ensures Collected(entries, n + 1, candidates, examples, baselines, w)
  {
  }

  lemma NewBodyIsCollected(entries: seq<Entry>, e: Entry, n: nat, candidates: seq<Candidate>, examples: seq<Example>,
                           baselines: map<string, real>, w: Words)
    requires n < |candidates| && Collected(entries, n, candidates, examples, baselines, w)
    requires e.index == n && IsEntryOf(e, candidates, examples, baselines, w) && e.body !in Bodies(entries)
    ensures Collected(entries + [e], n + 1, candidates, examples, baselines, w)
    ensures Bodies(entries + [e]) == Bodies(entries) + {e.body}
  {
    var all := entries + [e];
    BodiesOfMore(entries, e);
    LastIsOrdered(entries, e);
    forall i | 0 <= i < |all|
      ensures IsEntryOf(all[i], candidates, examples, baselines, w) && all[i].index < n + 1
    {
      assert i < |entries| ==> all[i] == entries[i];
    }
    forall x | x in all ensures IsFirst(x, candidates) {
      assert x in entries || x == e;
    }
  }

  lemma LastIsOrdered(entries: seq<Entry>, e: Entry)
    requires IndexOrdered(entries) && e.body !in Bodies(entries)
    requires forall i | 0 <= i < |entries| :: entries[i].index < e.index
    ensures IndexOrdered(entries + [e])
  {
    forall i | 0 <= i < |entries| ensures entries[i].body != e.body {
      assert entries[i] in entries;
    }
  }

  /** The loop over the first candidates: one entry for every new body. */
  method CollectEntries(candidates: seq<Candidate>, examples: seq<Example>, baselines: map<string, real>, w: Words)
    returns (entries: seq<Entry>)
    ensures Collected(entries, if |candidates| < MAX_CANDIDATES then |candidates| else MAX_CANDIDATES,
                      candidates, examples, baselines, w)
  {
    entries := [];
    var seen: set<string> := {};
    var n := if |candidates| < MAX_CANDIDATES then |candidates| else MAX_CANDIDATES;
    for index := 0 to n
      invariant Collected(entries, index, candidates, examples, baselines, w) && seen == Bodies(entries)
    {
      var c := candidates[index];
      if c.body != "" && c.body !in seen {
        var evaluations, holdout, regression := EvaluateCandidate(c.answers, examples, baselines, w);
        var entry := Entry(index, c.body, c.validation, holdout, regression);
        NewBodyIsCollected(entries, entry, index, candidates, examples, baselines, w);
        entries := entries + [entry];
        seen := seen + {c.body};
      } else {
        OldBodyAddsNothing(entries, index, candidates, examples, baselines, w);
      }
    }
  }

  lemma BodiesOfMore(entries: seq<Entry>, e: Entry)
    ensures Bodies(entries + [e]) == Bodies(entries) + {e.body}
    ensures forall x | x in entries :: x.body in Bodies(entries)
  {
    assert (entries + [e])[|entries|] == e;
    forall x | x in entries ensures x in entries + [e] {}
  }

  /** Keep the entries whose body changed, if there are any. */
  function Changed(entries: seq<Entry>, body: string): seq<Entry> {
    if entries == [] then []
    else (if entries[0].body != body then [entries[0]] else []) + Changed(entries[1..], body)
  }

  lemma {:induction false} ChangedHolds(entries: seq<Entry>, body: string, e: Entry)
    ensures e in Changed(entries, body) <==> e in entries && e.body != body
  {
    if entries != [] {
      ChangedHolds(entries[1..], body, e);
      assert e in entries <==> e == entries[0] || e in entries[1..];
    }
  }

  lemma {:induction false} ChangedStaysOrdered(entries: seq<Entry>, body: string)
    requires IndexOrdered(entries)
    ensures IndexOrdered(Changed(entries, body)) && |Changed(entries, body)| <= |entries|
  {
    if entries != [] {
      var tail := entries[1..];
      assert forall i | 0 <= i < |tail| :: tail[i] == entries[i + 1];
      ChangedStaysOrdered(tail, body);
      var more := Changed(tail, body);
      forall i | 0 <= i < |more|
        ensures entries[0].index < more[i].index && entries[0].body != more[i].body
      {
        ChangedHolds(tail, body, more[i]);
        var k :| 0 <= k < |tail| && tail[k] == more[i];
      }
    }
  }

  function Insert(e: Entry, sorted: seq<Entry>): seq<Entry> {
    if sorted == [] || Above(e, sorted[0]) then [e] + sorted else [sorted[0]] + Insert(e, sorted[1..])
  }

  /** Best first. */
  function Sort(entries: seq<Entry>): seq<Entry> {
    if entries == [] then [] else Insert(entries[0], Sort(entries[1..]))
  }

  predicate BestFirst(entries: seq<Entry>) {
    forall i, j | 0 <= i < j < |entries| :: Above(entries[i], entries[j])
  }

  lemma {:induction false} InsertKeepsAll(e: Entry, sorted: seq<Entry>)
    ensures multiset(Insert(e, sorted)) == multiset([e]) + multiset(sorted)
  {
    if sorted != [] {
      assert sorted == [sorted[0]] + sorted[1..];
      if !Above(e, sorted[0]) {
        InsertKeepsAll(e, sorted[1..]);
      }
    }
  }

  lemma {:induction false} InsertKeepsOrder(e: Entry, sorted: seq<Entry>)
    requires BestFirst(sorted) && forall i | 0 <= i < |sorted| :: sorted[i].index != e.index
    ensures BestFirst(Insert(e, sorted))
  {
    if sorted != [] && !Above(e, sorted[0]) {
      InsertKeepsOrder(e, sorted[1..]);
      var rest := Insert(e, sorted[1..]);
      InsertKeepsAll(e, sorted[1..]);
      forall i | 0 <= i < |rest| ensures Above(sorted[0], rest[i]) {
        assert rest[i] in multiset(rest);
        if rest[i] != e {
          assert rest[i] in multiset(sorted[1..]);
          var k :| 0 <= k < |sorted[1..]| && sorted[1..][k] == rest[i];
          assert sorted[k + 1] == rest[i];
        }
      }
    }
  }

  lemma {:induction false} SortOrders(entries: seq<Entry>)
    requires forall i, j | 0 <= i < j < |entries| :: entries[i].index != entries[j].index
    ensures BestFirst(Sort(entries)) && multiset(Sort(entries)) == multiset(entries)
  {
    if entries != [] {
      SortOrders(entries[1..]);
      assert entries == [entries[0]] + entries[1..];
      forall i | 0 <= i < |Sort(entries[1..])| ensures Sort(entries[1..])[i].index != entries[0].index {
        assert Sort(entries[1..])[i] in multiset(entries[1..]);
      }
      InsertKeepsOrder(entries[0], Sort(entries[1..]));
      InsertKeepsAll(entries[0], Sort(entries[1..]));
    }
  }

  /** Sorting reports the same entries, best first and still with distinct bodies. */
  lemma SortReports(entries: seq<Entry>)
    requires IndexOrdered(entries)
    ensures BestFirst(Sort(entries)) && |Sort(entries)| == |entries|
    ensures forall e | e in Sort(entries) :: e in entries
    ensures Bodies(Sort(entries)) == Bodies(entries)
    ensures forall i, j | 0 <= i < j < |Sort(entries)| :: Sort(entries)[i].body != Sort(entries)[j].body
  {
    SortOrders(entries);
    var sorted := Sort(entries);
    assert |multiset(sorted)| == |multiset(entries)|;
    assert forall e :: e in sorted <==> e in multiset(sorted);
    assert forall e :: e in entries <==> e in multiset(entries);
    forall i, j | 0 <= i < j < |sorted| ensures sorted[i].body != sorted[j].body {
      assert sorted[i] in entries && sorted[j] in entries && Above(sorted[i], sorted[j]);
      var k :| 0 <= k < |entries| && entries[k] == sorted[i];
      var l :| 0 <= l < |entries| && entries[l] == sorted[j];
      assert k != l;
    }
  }

  /**
    The reported candidates and the chosen one: at most eight entries with
    distinct bodies, best first; the first is the only one that no other ranks
    above, and it differs from the original body whenever some candidate does.
   */
  method ChooseAmong(body: string, candidates: seq<Candidate>, examples: seq<Example>, student: Answers, w: Words)
    returns (reported: Result<seq<Entry>>)
    ensures reported.Err? <==> forall k | 0 <= k < |candidates| && k < MAX_CANDIDATES :: candidates[k].body == ""
    ensures reported.Ok? ==>
              var entries, baselines := reported.value, Baselines(student, examples, w);
              && 0 < |entries| <= MAX_CANDIDATES && BestFirst(entries)
              && (forall i, j | 0 <= i < j < |entries| :: entries[i].body != entries[j].body)
              && (forall e | e in entries :: IsEntryOf(e, candidates, examples, baselines, w))
              && (forall e | e in entries :: IsFirst(e, candidates))
              && (forall k | 0 <= k < |candidates| && k < MAX_CANDIDATES && candidates[k].body !in {"", body} ::
                    candidates[k].body in Bodies(entries) && entries[0].body != body)
  {
    var baselines := Baselines(student, examples, w);
    var entries := CollectEntries(candidates, examples, baselines, w);
    if entries == [] {
      return Err("gepa_candidate_body_missing");
    }
    assert entries[0].index < MAX_CANDIDATES && candidates[entries[0].index].body != "";
    var changed := Changed(entries, body);
    ChangedStaysOrdered(entries, body);
    forall e | true ensures e in changed <==> e in entries && e.body != body {
      ChangedHolds(entries, body, e);
    }
    var kept := if changed != [] then changed else entries;
    SortReports(kept);
    reported := Ok(Sort(kept));
    forall k | 0 <= k < |candidates| && k < MAX_CANDIDATES && candidates[k].body !in {"", body}
      ensures candidates[k].body in Bodies(reported.value) && reported.value[0].body != body
    {
      var e :| e in entries && e.body == candidates[k].body;
      assert e in changed;
      assert reported.value[0] in kept;
    }
  }

  /**
    The choice as the optimizer's result comes in: a result without a body fails,
    whatever candidates it lists, and one that lists none is the only candidate.
   */
  method Choose(body: string, optimized: Candidate, candidates: seq<Candidate>, examples: seq<Example>, student: Answers, w: Words)
    returns (reported: Result<seq<Entry>>)
    ensures reported.Err? <==>
              || optimized.body == ""
              || (candidates != [] && forall k | 0 <= k < |candidates| && k < MAX_CANDIDATES :: candidates[k].body == "")
    ensures reported.Ok? ==>
              var entries, baselines := reported.value, Baselines(student, examples, w);
              var raw := if candidates == [] then [optimized] else candidates;
              && 0 < |entries| <= MAX_CANDIDATES && BestFirst(entries)
              && (forall i, j | 0 <= i < j < |entries| :: entries[i].body != entries[j].body)
              && (forall e | e in entries :: IsEntryOf(e, raw, examples, baselines, w))
              && Ranked(entries) && (forall e | e in entries :: IsFirst(e, raw))
              && (forall k | 0 <= k < |raw| && k < MAX_CANDIDATES && raw[k].body !in {"", body} ::
                    raw[k].body in Bodies(entries) && entries[0].body != body)
    ensures reported.Ok? && candidates == [] ==> |reported.value| == 1 && reported.value[0].body == optimized.body
  {
    if optimized.body == "" {
      return Err("gepa_candidate_body_missing");
    }
    var raw := if candidates == [] then [optimized] else candidates;
    reported := ChooseAmong(body, raw, examples, student, w);
    if reported.Ok? {
      BestFirstIsRanked(reported.value);
    }
    if candidates == [] {
      assert raw[0] == optimized;
      assert reported.Ok? ==> forall e | e in reported.value :: e.body == optimized.body;
      assert reported.Ok? ==> reported.value[0] in reported.value && reported.value[|reported.value| - 1] in reported.value;
    }
  }
}
