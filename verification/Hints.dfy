/** Hint validation: the quality rule, the bounded retry of each question, and repeated resumes. */
module Hints {
  import opened Option
  import opened Text

  type QuestionId = nat

  /** A field of the parsed model output: a string, or some other JSON value. */
  datatype HintText = Str(text: string) | NotAString

  datatype Hint = Hint(hint1: HintText, hint2: HintText, hint3: HintText)

  datatype ParsedHint = ParsedHint(questionId: QuestionId, hint: Hint)

  type Written = map<QuestionId, Hint>

  const BANNED_PHRASES := ["the correct answer is", "the answer is"]

  function LowerChar(c: char): (r: char)
    ensures 'A' <= c <= 'Z' ==> 'a' <= r <= 'z' && r as int - 'a' as int == c as int - 'A' as int
    ensures !('A' <= c <= 'Z') ==> r == c
  {
    if 'A' <= c <= 'Z' then c - 'A' + 'a' else c
  }

  function Lower(s: string): string {
    seq(|s|, i requires 0 <= i < |s| => LowerChar(s[i]))
  }

  predicate Contains(s: string, phrase: string) {
    exists i | 0 <= i <= |s| :: StartsWith(s[i..], phrase)
  }

  predicate LeaksAnswer(s: string) {
    exists phrase | phrase in BANNED_PHRASES :: Contains(Lower(s), phrase)
  }

  lemma ContainsMeans(s: string, phrase: string)
    ensures Contains(s, phrase) <==> exists a, b :: s == a + phrase + b
  {
    if Contains(s, phrase) {
      var i :| 0 <= i <= |s| && StartsWith(s[i..], phrase);
      var b := s[i..][|phrase|..];
      assert s[i..] == phrase + b;
      assert s == s[..i] + phrase + b;
    }
    if a, b :| s == a + phrase + b {
      assert s[|a|..] == phrase + b && (phrase + b)[..|phrase|] == phrase;
      assert StartsWith(s[|a|..], phrase);
    }
  }

  lemma LeaksAnswerMeans(s: string)
    ensures LeaksAnswer(s) <==>
              || (exists a, b :: Lower(s) == a + "the correct answer is" + b)
              || (exists a, b :: Lower(s) == a + "the answer is" + b)
  {
    var low := Lower(s);
    ContainsMeans(low, "the correct answer is");
    ContainsMeans(low, "the answer is");
    hide Lower, Contains;
    assert BANNED_PHRASES[0] == "the correct answer is" && BANNED_PHRASES[1] == "the answer is";
    assert LeaksAnswer(s) <==> Contains(low, "the correct answer is") || Contains(low, "the answer is");
  }

  /** A string with at least one word that gives no answer away. */
  predicate Acceptable(v: HintText) {
    v.Str? && Words(v.text) != [] && !LeaksAnswer(v.text)
  }

  /** The rule: three acceptable hints, the first no longer than the last. */
  predicate GoodHint(h: Hint) {
    && Acceptable(h.hint1) && Acceptable(h.hint2) && Acceptable(h.hint3)
    && |Strip(h.hint1.text)| <= |Strip(h.hint3.text)|
  }

  lemma GoodHintMeans(h: Hint)
    ensures GoodHint(h) <==>
              && h.hint1.Str? && h.hint2.Str? && h.hint3.Str?
              && Strip(h.hint1.text) != "" && Strip(h.hint2.text) != "" && Strip(h.hint3.text) != ""
              && !LeaksAnswer(h.hint1.text) && !LeaksAnswer(h.hint2.text) && !LeaksAnswer(h.hint3.text)
              && |Strip(h.hint1.text)| <= |Strip(h.hint3.text)|
  {
    hide LeaksAnswer, Words, Strip;
    forall v: HintText | v in [h.hint1, h.hint2, h.hint3] && v.Str?
      ensures Words(v.text) == [] <==> Strip(v.text) == ""
    {
      StripEmptyIffBlank(v.text);
    }
    assert h.hint1 in [h.hint1, h.hint2, h.hint3] && h.hint2 in [h.hint1, h.hint2, h.hint3];
    assert h.hint3 in [h.hint1, h.hint2, h.hint3];
  }

  /** `_hint_quality_issue`: no issue exactly for a good hint. */
  method HintQualityIssue(h: Hint) returns (issue: bool)
    ensures issue <==> !GoodHint(h)
    ensures issue <==>
              || h.hint1.NotAString? || h.hint2.NotAString? || h.hint3.NotAString?
              || Strip(h.hint1.text) == "" || Strip(h.hint2.text) == "" || Strip(h.hint3.text) == ""
              || LeaksAnswer(h.hint1.text) || LeaksAnswer(h.hint2.text) || LeaksAnswer(h.hint3.text)
              || |Strip(h.hint1.text)| > |Strip(h.hint3.text)|
  {
    GoodHintMeans(h);
    hide LeaksAnswer, Words, Strip;
    var values := [h.hint1, h.hint2, h.hint3];
    for i := 0 to 3
      invariant forall j | 0 <= j < i :: Acceptable(values[j])
    {
      assert GoodHint(h) ==> Acceptable(values[i]);
      if values[i].NotAString? {
        return true;
      }
      var text := values[i].text;
      StripEmptyIffBlank(text);
      if Strip(text) == "" || LeaksAnswer(text) {
        return true;
      }
    }
    assert Acceptable(values[0]) && Acceptable(values[1]) && Acceptable(values[2]);
    issue := |Strip(h.hint1.text)| > |Strip(h.hint3.text)|;
  }

  /** The model's answers to single-question retries, by attempt; `None` for a failed or unusable call. */
  type Regenerator = (QuestionId, nat) -> Option<Hint>

  /** What is judged on an attempt: the batch's hint first, then the retries' hints. */
  function Candidate(first: Option<Hint>, q: QuestionId, regenerate: Regenerator, k: nat): Option<Hint> {
    if k == 0 then first else regenerate(q, k)
  }

  predicate Passes(c: Option<Hint>) {
    c.Some? && GoodHint(c.value)
  }

  /** The first good candidate from attempt `k` on, within the retry budget. */
  function FirstGood(first: Option<Hint>, q: QuestionId, regenerate: Regenerator, k: nat, maxRetries: int): Option<Hint>
    decreases maxRetries - k
  {
    if k > maxRetries then None
    else if Passes(Candidate(first, q, regenerate, k)) then Candidate(first, q, regenerate, k)
    else FirstGood(first, q, regenerate, k + 1, maxRetries)
  }

  lemma {:induction false} FirstGoodMeaning(
    first: Option<Hint>, q: QuestionId, regenerate: Regenerator, k: nat, maxRetries: int)
    ensures var r := FirstGood(first, q, regenerate, k, maxRetries);
            && (r.Some? ==> GoodHint(r.value))
            && (r.Some? <==> exists j: nat | k <= j <= maxRetries :: Passes(Candidate(first, q, regenerate, j)))
    decreases maxRetries - k
  {
    hide GoodHint;
    if k <= maxRetries && !Passes(Candidate(first, q, regenerate, k)) {
      FirstGoodMeaning(first, q, regenerate, k + 1, maxRetries);
    }
  }

  /** The hint found is the candidate of the first attempt that has a good one. */
  lemma {:induction false} FirstGoodIsFirst(
    first: Option<Hint>, q: QuestionId, regenerate: Regenerator, k: nat, maxRetries: int) returns (j: nat)
    requires FirstGood(first, q, regenerate, k, maxRetries).Some?
    ensures k <= j <= maxRetries
    ensures Candidate(first, q, regenerate, j) == FirstGood(first, q, regenerate, k, maxRetries)
    ensures Passes(Candidate(first, q, regenerate, j))
    ensures forall i: nat | k <= i < j :: !Passes(Candidate(first, q, regenerate, i))
    decreases maxRetries - k
  {
    hide GoodHint;
    if Passes(Candidate(first, q, regenerate, k)) {
      j := k;
    } else {
      j := FirstGoodIsFirst(first, q, regenerate, k + 1, maxRetries);
    }
  }

  datatype Verdict = WriteHint(hint: Hint) | Exhausted(attempts: int) | NotTried

  function VerdictOf(first: Option<Hint>, q: QuestionId, regenerate: Regenerator, maxRetries: int): Verdict {
    if maxRetries < 0 then NotTried
    else
      match FirstGood(first, q, regenerate, 0, maxRetries)
      case Some(h) => WriteHint(h)
      case None => Exhausted(maxRetries + 1)
  }

  /** How many regenerations one question may cost. */
  function Budget(maxRetries: int): nat {
    if maxRetries < 0 then 0 else maxRetries
  }

  /** The retry loop of one question: the first good candidate wins, within `maxRetries` regenerations. */
  method SettleQuestion(first: Option<Hint>, q: QuestionId, regenerate: Regenerator, maxRetries: int)
    returns (verdict: Verdict, calls: nat)
    ensures verdict == VerdictOf(first, q, regenerate, maxRetries)
    ensures calls <= Budget(maxRetries)
    ensures verdict.WriteHint? ==> Candidate(first, q, regenerate, calls) == Some(verdict.hint)
    ensures verdict.Exhausted? ==> calls == maxRetries
    // the first good candidate wins; a question is given up only after every candidate was bad
    ensures verdict.WriteHint? ==>
              && GoodHint(verdict.hint)
              && forall k: nat | k < calls :: Candidate(first, q, regenerate, k).None?
                                              || !GoodHint(Candidate(first, q, regenerate, k).value)
    ensures verdict.Exhausted? ==>
              && verdict.attempts == maxRetries + 1
              && forall k: nat | k <= maxRetries :: Candidate(first, q, regenerate, k).None?
                                                    || !GoodHint(Candidate(first, q, regenerate, k).value)
    ensures verdict.NotTried? <==> maxRetries < 0
  {
    hide GoodHint;
    var hint := first;
    calls := 0;
    while calls <= maxRetries
      invariant calls <= maxRetries || (calls == 0 && maxRetries < 0)
      invariant hint == Candidate(first, q, regenerate, calls)
      invariant forall k: nat | k < calls :: Candidate(first, q, regenerate, k).None?
                                             || !GoodHint(Candidate(first, q, regenerate, k).value)
      invariant maxRetries >= 0 ==>
        FirstGood(first, q, regenerate, 0, maxRetries) == FirstGood(first, q, regenerate, calls, maxRetries)
      decreases maxRetries - calls
    {
      if hint.Some? {
        var issue := HintQualityIssue(hint.value);
        if !issue {
          return WriteHint(hint.value), calls;
        }
      }
      if calls >= maxRetries {
        return Exhausted(calls + 1), calls;
      }
      calls := calls + 1;
      hint := regenerate(q, calls);
    }
    verdict := NotTried;
  }

  /** Which questions a call works on: the ones that failed before, or those without a hint. */
  function Selected(questions: seq<QuestionId>, written: Written, failed: seq<QuestionId>): seq<QuestionId> {
    if questions == [] then []
    else
      var q, rest := questions[0], Selected(questions[1..], written, failed);
      if (if failed != [] then q in failed else q !in written) then [q] + rest else rest
  }

  lemma {:induction false} SelectedMeaning(
    questions: seq<QuestionId>, written: Written, failed: seq<QuestionId>, q: QuestionId)
    ensures q in Selected(questions, written, failed)
       <==> q in questions && (if failed != [] then q in failed else q !in written)
  {
    if questions != [] {
      SelectedMeaning(questions[1..], written, failed, q);
    }
  }

  /** The selection keeps the order and the number of the questions: it is taken question by question. */
  lemma {:induction false} SelectedAppend(
    a: seq<QuestionId>, b: seq<QuestionId>, written: Written, failed: seq<QuestionId>)
    ensures Selected(a + b, written, failed) == Selected(a, written, failed) + Selected(b, written, failed)
    ensures forall q :: Selected([q], written, failed)
                     == if (if failed == [] then q in written else q !in failed) then [] else [q]
  {
    if a == [] {
      assert a + b == b;
    } else {
      assert (a + b)[1..] == a[1..] + b;
      SelectedAppend(a[1..], b, written, failed);
    }
  }

  predicate HasDuplicate(parsed: seq<ParsedHint>) {
    exists i, j | 0 <= i < j < |parsed| :: parsed[i].questionId == parsed[j].questionId
  }

  /** The batch's hint for a question; unambiguous without duplicates. */
  function BatchHint(parsed: seq<ParsedHint>, q: QuestionId): Option<Hint> {
    if parsed == [] then None
    else if parsed[|parsed| - 1].questionId == q then Some(parsed[|parsed| - 1].hint)
    else BatchHint(parsed[..|parsed| - 1], q)
  }

  lemma {:induction false} BatchHintMeans(parsed: seq<ParsedHint>, q: QuestionId, h: Hint)
    requires !HasDuplicate(parsed)
    ensures BatchHint(parsed, q) == Some(h) <==> ParsedHint(q, h) in parsed
  {
    if parsed != [] {
      var n := |parsed| - 1;
      assert forall x | x in parsed[..n] :: x in parsed;
      assert !HasDuplicate(parsed[..n]) by {
        assert forall i | 0 <= i < n :: parsed[..n][i] == parsed[i];
      }
      BatchHintMeans(parsed[..n], q, h);
      assert parsed == parsed[..n] + [parsed[n]];
      if ParsedHint(q, h) in parsed[..n] {
        var i :| 0 <= i < n && parsed[..n][i] == ParsedHint(q, h);
        assert parsed[i].questionId == q;
      }
    }
  }

  /** What one validation call leaves behind in the graph state. */
  datatype Validation = Validation(written: Written, failed: seq<QuestionId>, validated: seq<ParsedHint>)

  function SettleAll(
    qs: seq<QuestionId>, parsed: seq<ParsedHint>, regenerate: Regenerator, maxRetries: int, written: Written)
    : Validation
  {
    if qs == [] then Validation(written, [], [])
    else
      var n := |qs| - 1;
      SettleOne(SettleAll(qs[..n], parsed, regenerate, maxRetries, written), qs[n], parsed, regenerate, maxRetries)
  }

  /** The hints of `after` that `before` did not have. */
  function NewlyWritten(before: Written, after: Written): Written {
    map q | q in after && q !in before :: after[q]
  }

  /** Where a question ends up, whatever else was in the batch. */
  predicate Settled(
    q: QuestionId, before: Written, parsed: seq<ParsedHint>, regenerate: Regenerator, maxRetries: int, v: Validation)
  {
    var r := FirstGood(BatchHint(parsed, q), q, regenerate, 0, maxRetries);
    && (q in v.written <==> q in before || r.Some?)
    && (q in v.failed <==> q !in before && r.None? && maxRetries >= 0)
    && (q in before ==> v.written[q] == before[q])
    && (q !in before && r.Some? ==> v.written[q] == r.value)
  }

  /** One question's verdict, put into the state that the questions before it left. */
  function SettleOne(
    v: Validation, q: QuestionId, parsed: seq<ParsedHint>, regenerate: Regenerator, maxRetries: int): Validation
  {
    if q in v.written then v
    else
      match VerdictOf(BatchHint(parsed, q), q, regenerate, maxRetries)
      case WriteHint(h) => Validation(v.written[q := h], v.failed, v.validated + [ParsedHint(q, h)])
      case Exhausted(_) => v.(failed := v.failed + [q])
      case NotTried => v
  }

  /** That verdict settles its question and leaves every other one as it was. */
  lemma SettleOneMeaning(
    v: Validation, q: QuestionId, parsed: seq<ParsedHint>, regenerate: Regenerator, maxRetries: int, written: Written)
    requires forall x | x in written :: x in v.written && v.written[x] == written[x]
    requires || Settled(q, written, parsed, regenerate, maxRetries, v)
             || (q !in v.failed && (q in v.written <==> q in written))
    ensures var v' := SettleOne(v, q, parsed, regenerate, maxRetries);
            && Settled(q, written, parsed, regenerate, maxRetries, v')
            && (forall x | x != q && Settled(x, written, parsed, regenerate, maxRetries, v) ::
                  Settled(x, written, parsed, regenerate, maxRetries, v'))
            && (forall x | x != q :: (x in v'.failed <==> x in v.failed) && (x in v'.written <==> x in v.written))
            && (forall x | x in written :: x in v'.written && v'.written[x] == written[x])
  {
    NegativeBudget(BatchHint(parsed, q), q, regenerate, maxRetries);
    hide Passes, Candidate, BatchHint, FirstGood;
  }

  /** Every question is settled by its own candidates; nothing else in the state moves. */
  lemma {:induction false} SettleAllMeaning(
    qs: seq<QuestionId>, parsed: seq<ParsedHint>, regenerate: Regenerator, maxRetries: int, written: Written)
    ensures var v := SettleAll(qs, parsed, regenerate, maxRetries, written);
            && (forall q | q in qs :: Settled(q, written, parsed, regenerate, maxRetries, v))
            && (forall q | q !in qs :: q !in v.failed && (q in v.written <==> q in written))
            && (forall q | q in written :: q in v.written && v.written[q] == written[q])
    decreases |qs|
  {
    hide Passes, Candidate, BatchHint, FirstGood;
    if qs != [] {
      var n := |qs| - 1;
      var q := qs[n];
      var before := SettleAll(qs[..n], parsed, regenerate, maxRetries, written);
      SettleAllMeaning(qs[..n], parsed, regenerate, maxRetries, written);
      SettleOneMeaning(before, q, parsed, regenerate, maxRetries, written);
      hide VerdictOf, SettleOne, Settled;
      assert forall x :: x in qs <==> x in qs[..n] || x == q by {
        assert qs == qs[..n] + [q];
      }
    }
  }

  /** The validated list holds exactly the hints that are new, each under its question. */
  lemma {:induction false} ValidatedAreNew(
    qs: seq<QuestionId>, parsed: seq<ParsedHint>, regenerate: Regenerator, maxRetries: int, written: Written)
    ensures var v := SettleAll(qs, parsed, regenerate, maxRetries, written);
            && written.Keys <= v.written.Keys
            && (forall x | x in v.validated ::
                  x.questionId in v.written && x.questionId !in written && v.written[x.questionId] == x.hint)
            && (forall q | q in v.written && q !in written :: ParsedHint(q, v.written[q]) in v.validated)
    decreases |qs|
  {
    hide VerdictOf, BatchHint;
    if qs != [] {
      ValidatedAreNew(qs[..|qs| - 1], parsed, regenerate, maxRetries, written);
    }
  }

  lemma NegativeBudget(first: Option<Hint>, q: QuestionId, regenerate: Regenerator, maxRetries: int)
    ensures maxRetries < 0 ==> FirstGood(first, q, regenerate, 0, maxRetries) == None
  {
  }

  /** Each newly written hint passes the quality rule. */
  lemma NewHintsAreGood(
    qs: seq<QuestionId>, parsed: seq<ParsedHint>, regenerate: Regenerator, maxRetries: int, written: Written)
    ensures var after := SettleAll(qs, parsed, regenerate, maxRetries, written).written;
            forall q | q in NewlyWritten(written, after) :: GoodHint(after[q])
  {
    hide GoodHint, FirstGood;
    SettleAllMeaning(qs, parsed, regenerate, maxRetries, written);
    var after := SettleAll(qs, parsed, regenerate, maxRetries, written).written;
    forall q | q in after && q !in written ensures GoodHint(after[q]) {
      assert q in qs;
      FirstGoodMeaning(BatchHint(parsed, q), q, regenerate, 0, maxRetries);
    }
  }

  /** One run of the validation node; a batch with a repeated question id is refused and changes nothing. */
  datatype Round = Round(parsed: seq<ParsedHint>, regenerate: Regenerator)

  datatype Progress = Progress(written: Written, failed: seq<QuestionId>)

  function Validate(questions: seq<QuestionId>, p: Progress, r: Round, maxRetries: int): Progress {
    if HasDuplicate(r.parsed) then p
    else
      var v := SettleAll(Selected(questions, p.written, p.failed), r.parsed, r.regenerate, maxRetries, p.written);
      Progress(v.written, v.failed)
  }

  /** Every question is in exactly one of written and failed. */
  predicate Covers(questions: seq<QuestionId>, p: Progress) {
    && (forall q | q in questions :: (q in p.written) != (q in p.failed))
    && (forall q | q in p.failed :: q in questions)
  }

  /** A state that validation can start from: nothing failed yet, or the outcome of an earlier run. */
  predicate CanValidate(questions: seq<QuestionId>, p: Progress) {
    p.failed == [] || Covers(questions, p)
  }

  /** One run covers its questions, loses no hint and, after a covering run, fails nothing new. */
  lemma RoundCovers(questions: seq<QuestionId>, p: Progress, r: Round, maxRetries: int)
    requires maxRetries >= 0 && !HasDuplicate(r.parsed) && CanValidate(questions, p)
    ensures var after := Validate(questions, p, r, maxRetries);
            && Covers(questions, after)
            && (forall q | q in p.written :: q in after.written && after.written[q] == p.written[q])
            && (Covers(questions, p) ==> forall q | q in after.failed :: q in p.failed)
  {
    hide FirstGood, SettleAll, Selected;
    var selected := Selected(questions, p.written, p.failed);
    SettleAllMeaning(selected, r.parsed, r.regenerate, maxRetries, p.written);
    forall q ensures q in selected <==> q in questions && (if p.failed != [] then q in p.failed else q !in p.written) {
      SelectedMeaning(questions, p.written, p.failed, q);
    }
  }

  /** With a negative retry setting the loop is never entered, so only an empty selection is covered. */
  lemma RoundCoversExactlyWhen(questions: seq<QuestionId>, p: Progress, r: Round, maxRetries: int)
    requires !HasDuplicate(r.parsed) && CanValidate(questions, p)
    ensures Covers(questions, Validate(questions, p, r, maxRetries))
       <==> maxRetries >= 0 || Selected(questions, p.written, p.failed) == []
  {
    hide FirstGood, SettleAll, Selected;
    var selected := Selected(questions, p.written, p.failed);
    if maxRetries >= 0 {
      RoundCovers(questions, p, r, maxRetries);
    } else {
      SettleAllMeaning(selected, r.parsed, r.regenerate, maxRetries, p.written);
      forall q
        ensures q in selected <==> q in questions && (if p.failed != [] then q in p.failed else q !in p.written)
      {
        SelectedMeaning(questions, p.written, p.failed, q);
      }
      forall q | q in selected ensures q !in p.written {
      }
      forall q | q in questions && q !in selected ensures q in p.written {
      }
      forall q | q in selected {
        NegativeBudget(BatchHint(r.parsed, q), q, r.regenerate, maxRetries);
      }
      assert selected != [] ==> selected[0] in selected;
    }
  }

  /** One question without a hint and a retry setting of -1: neither written nor failed. */
  lemma NegativeSettingLosesTheQuestion(q: QuestionId, r: Round)
    requires !HasDuplicate(r.parsed)
    ensures !Covers([q], Validate([q], Progress(map[], []), r, -1))
  {
    SelectedMeaning([q], map[], [], q);
    RoundCoversExactlyWhen([q], Progress(map[], []), r, -1);
  }

  function ValidateAll(questions: seq<QuestionId>, p: Progress, rounds: seq<Round>, maxRetries: int): Progress
    decreases |rounds|
  {
    if rounds == [] then p
    else
      var n := |rounds| - 1;
      Validate(questions, ValidateAll(questions, p, rounds[..n], maxRetries), rounds[n], maxRetries)
  }

  /**
   Repeated resumes, refused batches among them, never lose a question or a hint and never enlarge
   the failed set; one usable batch is enough to cover every question.
   */
  lemma {:induction false} ResumesCover(questions: seq<QuestionId>, p: Progress, rounds: seq<Round>, maxRetries: int)
    requires maxRetries >= 0 && CanValidate(questions, p)
    ensures var after := ValidateAll(questions, p, rounds, maxRetries);
            && CanValidate(questions, after)
            && (Covers(questions, p) || (exists i | 0 <= i < |rounds| :: !HasDuplicate(rounds[i].parsed)) ==>
                  Covers(questions, after))
            && (forall q | q in p.written :: q in after.written && after.written[q] == p.written[q])
            && (Covers(questions, p) ==> forall q | q in after.failed :: q in p.failed)
    decreases |rounds|
  {
    hide Covers, CanValidate, HasDuplicate;
    if rounds != [] {
      var n := |rounds| - 1;
      var before := ValidateAll(questions, p, rounds[..n], maxRetries);
      ResumesCover(questions, p, rounds[..n], maxRetries);
      assert forall i | 0 <= i < n :: rounds[..n][i] == rounds[i];
      if !HasDuplicate(rounds[n].parsed) {
        RoundCovers(questions, before, rounds[n], maxRetries);
        CoversCanValidate(questions, Validate(questions, before, rounds[n], maxRetries));
      }
    }
  }

  lemma CoversCanValidate(questions: seq<QuestionId>, p: Progress)
    ensures Covers(questions, p) ==> CanValidate(questions, p)
  {
  }

  /** Each further usable resume that leaves something failed has failed it on every candidate. */
  lemma FailedMeansNoGoodCandidate(questions: seq<QuestionId>, p: Progress, r: Round, maxRetries: int, q: QuestionId)
    requires maxRetries >= 0 && !HasDuplicate(r.parsed)
    requires q in Validate(questions, p, r, maxRetries).failed
    ensures forall k: nat | k <= maxRetries :: !Passes(Candidate(BatchHint(r.parsed, q), q, r.regenerate, k))
  {
    hide Passes, Candidate, FirstGood, Selected, SettleAll, BatchHint, HasDuplicate;
    var qs := Selected(questions, p.written, p.failed);
    assert q in SettleAll(qs, r.parsed, r.regenerate, maxRetries, p.written).failed;
    SettleAllMeaning(qs, r.parsed, r.regenerate, maxRetries, p.written);
    assert q in qs;
    hide Validate;
    FirstGoodMeaning(BatchHint(r.parsed, q), q, r.regenerate, 0, maxRetries);
  }

  function Lookup(byQuestionId: Written, q: QuestionId): Option<Hint> {
    if q in byQuestionId then Some(byQuestionId[q]) else None
  }

  ghost predicate Indexes(byQuestionId: Written, parsed: seq<ParsedHint>) {
    forall q :: Lookup(byQuestionId, q) == BatchHint(parsed, q)
  }

  lemma IndexedHint(byQuestionId: Written, parsed: seq<ParsedHint>, q: QuestionId)
    requires Indexes(byQuestionId, parsed)
    ensures Lookup(byQuestionId, q) == BatchHint(parsed, q)
  {
  }

  /** The dictionary of the batch, refused on a repeated question id. */
  method IndexByQuestion(parsed: seq<ParsedHint>) returns (index: Option<Written>)
    ensures index.None? <==> HasDuplicate(parsed)
    ensures index.Some? ==> Indexes(index.value, parsed)
  {
    var byQuestionId: Written := map[];
    for i := 0 to |parsed|
      invariant Indexes(byQuestionId, parsed[..i])
      invariant forall q :: q in byQuestionId <==> exists j | 0 <= j < i :: parsed[j].questionId == q
      invariant forall j, k | 0 <= j < k < i :: parsed[j].questionId != parsed[k].questionId
    {
      var item := parsed[i];
      assert parsed[..i + 1][..i] == parsed[..i];
      if item.questionId in byQuestionId {
        return None;
      }
      byQuestionId := byQuestionId[item.questionId := item.hint];
    }
    assert parsed[..|parsed|] == parsed;
    index := Some(byQuestionId);
  }

  lemma NothingSettled(
    qs: seq<QuestionId>, parsed: seq<ParsedHint>, regenerate: Regenerator, maxRetries: int, written: Written,
    staged: Written)
    ensures SettleAll(qs[..0], parsed, regenerate, maxRetries, written) == Validation(written, [], [])
    ensures staged + NewlyWritten(written, written) == staged
    ensures 0 * Budget(maxRetries) == 0
  {
  }

  lemma OneMoreSettled(
    qs: seq<QuestionId>, i: nat, parsed: seq<ParsedHint>, regenerate: Regenerator, maxRetries: int, written: Written)
    requires i < |qs|
    ensures var v := SettleAll(qs[..i], parsed, regenerate, maxRetries, written);
            SettleAll(qs[..i + 1], parsed, regenerate, maxRetries, written) == (
              if qs[i] in v.written then v
              else
                match VerdictOf(BatchHint(parsed, qs[i]), qs[i], regenerate, maxRetries)
                case WriteHint(h) => Validation(v.written[qs[i] := h], v.failed, v.validated + [ParsedHint(qs[i], h)])
                case Exhausted(_) => v.(failed := v.failed + [qs[i]])
                case NotTried => v)
  {
    assert qs[..i + 1][..i] == qs[..i];
  }

  lemma OneMoreBudget(i: nat, maxRetries: int)
    ensures (i + 1) * Budget(maxRetries) == i * Budget(maxRetries) + Budget(maxRetries)
  {
  }

  lemma OneMoreWritten(staged: Written, before: Written, after: Written, q: QuestionId, h: Hint)
    requires before.Keys <= after.Keys && q !in after
    ensures (staged + NewlyWritten(before, after))[q := h] == staged + NewlyWritten(before, after[q := h])
  {
  }

  /** The questions of a quiz as the hint repository holds them: staged writes are not yet committed. */
  class HintRepository {
    var staged: Written
    var committed: Written

    constructor ()
      ensures staged == map[] && committed == map[]
    {
      staged, committed := map[], map[];
    }

    method UpdateQuestionHints(q: QuestionId, h: Hint)
      modifies this`staged
      ensures staged == old(staged)[q := h]
    {
      staged := staged[q := h];
    }

    method Commit()
      modifies this
      ensures staged == map[] && committed == old(committed) + old(staged)
    {
      committed := committed + staged;
      staged := map[];
    }

    /** `validate_hint_quality`; `None` is the error return for a repeated question id. */
    method ValidateHintQuality(
      questions: seq<QuestionId>, parsed: seq<ParsedHint>, hintsWritten: Written, failedIds: seq<QuestionId>,
      regenerate: Regenerator, maxRetries: int) returns (v: Option<Validation>, calls: nat)
      modifies this`staged
      ensures v.None? <==> HasDuplicate(parsed)
      ensures v.Some? ==>
        v.value == SettleAll(Selected(questions, hintsWritten, failedIds), parsed, regenerate, maxRetries, hintsWritten)
      ensures v.Some? ==> staged == old(staged) + NewlyWritten(hintsWritten, v.value.written)
      ensures v.None? ==> staged == old(staged) && calls == 0
      ensures calls <= |Selected(questions, hintsWritten, failedIds)| * Budget(maxRetries)
    {
      calls := 0;
      var qs := SelectQuestions(questions, hintsWritten, failedIds);
      var byQuestionId := IndexByQuestion(parsed);
      if byQuestionId.None? {
        return None, 0;
      }
      hide *;
      var r := Validation(hintsWritten, [], []);
      NothingSettled(qs, parsed, regenerate, maxRetries, hintsWritten, staged);
      for i := 0 to |qs|
        invariant r == SettleAll(qs[..i], parsed, regenerate, maxRetries, hintsWritten)
        invariant staged == old(staged) + NewlyWritten(hintsWritten, r.written)
        invariant hintsWritten.Keys <= r.written.Keys
        invariant calls <= i * Budget(maxRetries)
      {
        var q := qs[i];
        OneMoreSettled(qs, i, parsed, regenerate, maxRetries, hintsWritten);
        OneMoreBudget(i, maxRetries);
        if q !in r.written {
          var verdict, used := SettleQuestion(Lookup(byQuestionId.value, q), q, regenerate, maxRetries);
          calls := calls + used;
          IndexedHint(byQuestionId.value, parsed, q);
          match verdict {
            case WriteHint(h) =>
              OneMoreWritten(old(staged), hintsWritten, r.written, q, h);
              UpdateQuestionHints(q, h);
              r := Validation(r.written[q := h], r.failed, r.validated + [ParsedHint(q, h)]);
            case Exhausted(_) =>
              r := r.(failed := r.failed + [q]);
            case NotTried =>
          }
        }
      }
      assert qs[..|qs|] == qs;
      v := Some(r);
    }

    /** `persist_hints_to_questions`: flush what the state does not count as written, then commit. */
    method PersistHints(v: Validation)
      modifies this
      ensures v.validated != [] || v.written != map[] ==> staged == map[]
      ensures v.validated == [] && v.written == map[] ==> staged == old(staged) && committed == old(committed)
      ensures (forall h | h in v.validated :: h.questionId in v.written) && (v.validated != [] || v.written != map[])
          ==> committed == old(committed) + old(staged)
    {
      for i := 0 to |v.validated|
        invariant committed == old(committed)
        invariant (forall h | h in v.validated[..i] :: h.questionId in v.written) ==> staged == old(staged)
        invariant i == 0 ==> staged == old(staged)
      {
        var h := v.validated[i];
        assert v.validated[..i + 1] == v.validated[..i] + [h];
        if h.questionId !in v.written {
          UpdateQuestionHints(h.questionId, h.hint);
        }
      }
      assert v.validated[..|v.validated|] == v.validated;
      if v.validated != [] || v.written != map[] {
        Commit();
      }
    }
  }

  /** The filter in front of the loop. */
  method SelectQuestions(questions: seq<QuestionId>, written: Written, failedIds: seq<QuestionId>)
    returns (qs: seq<QuestionId>)
    ensures qs == Selected(questions, written, failedIds)
  {
    qs := [];
    assert questions[0..] == questions;
    for i := 0 to |questions|
      invariant qs + Selected(questions[i..], written, failedIds) == Selected(questions, written, failedIds)
    {
      assert questions[i..][1..] == questions[i + 1..];
      if failedIds != [] {
        if questions[i] in failedIds {
          qs := qs + [questions[i]];
        }
      } else if questions[i] !in written {
        qs := qs + [questions[i]];
      }
    }
  }
}
