/** The phrase cycler of the page heading (`runTyping` in script.js).

    One call of `runTyping` is one `Step`: it types or deletes one character
    of the current phrase, writes the visible prefix, and schedules the next
    call after a delay. The timer itself is not modelled; a step returns the
    delay it would schedule. */
module Typewriter {

  /** The phrases cycled through, in order. */
  const TitlePhrases: seq<string> := [
    "Aspiring AI & ML Engineer",
    "Internship-Ready Problem Solver",
    "Engineering Student with Build Experience"
  ]

  /** Delays, in milliseconds, that a step schedules before the next one. */
  const PauseDelay: nat := 1200
  const DeleteDelay: nat := 35
  const TypeDelay: nat := 60

  datatype TypingState = TypingState(phraseIndex: int, charIndex: int, deleting: bool)

  /** What one call produces: the next state, the text written to the
      heading, and the delay passed to the timer. */
  datatype StepResult = StepResult(next: TypingState, shown: string, delay: nat)

  /** The module-level initial values. */
  const Initial := TypingState(0, 0, false)

  predicate NonEmptyPhrases(phrases: seq<string>) {
    |phrases| > 0 && forall k :: 0 <= k < |phrases| ==> |phrases[k]| > 0
  }

  /** The invariant of every state the cycler passes through between calls. */
  predicate Valid(phrases: seq<string>, s: TypingState) {
    && 0 <= s.phraseIndex < |phrases|
    && if s.deleting then 1 <= s.charIndex <= |phrases[s.phraseIndex]|
       else 0 <= s.charIndex < |phrases[s.phraseIndex]|
  }

  /** The text a state stands for: the first `charIndex` characters of its phrase. */
  function Shown(phrases: seq<string>, s: TypingState): string
    requires Valid(phrases, s)
  {
    phrases[s.phraseIndex][..s.charIndex]
  }

  /** `String.prototype.slice(0, end)`: a negative end counts from the back,
      and both ends are clamped to the string. */
  function SlicePrefix(s: string, end: int): (r: string)
    ensures r <= s
    ensures 0 <= end <= |s| ==> |r| == end
    ensures end < 0 ==> |r| < |s| || |s| == 0
  {
    var k := if end < 0 then (if |s| + end < 0 then 0 else |s| + end)
             else if end > |s| then |s| else end;
    s[..k]
  }

  /** One call of the cycler. Only the phrase lookup can fail in the source
      (an undefined phrase has no `slice`), so only the index is required. */
  function Step(phrases: seq<string>, s: TypingState): (r: StepResult)
    requires 0 <= s.phraseIndex < |phrases|
    ensures 0 <= r.next.phraseIndex < |phrases|
    ensures NonEmptyPhrases(phrases) && Valid(phrases, s) ==>
              Valid(phrases, r.next) && r.shown == Shown(phrases, r.next)
    ensures r.delay in {PauseDelay, DeleteDelay, TypeDelay}
  {
    var phrase := phrases[s.phraseIndex];
    if !s.deleting then
      var c := s.charIndex + 1;
      var shown := SlicePrefix(phrase, c);
      if c == |phrase| then StepResult(TypingState(s.phraseIndex, c, true), shown, PauseDelay)
      else StepResult(TypingState(s.phraseIndex, c, false), shown, TypeDelay)
    else
      var c := s.charIndex - 1;
      var shown := SlicePrefix(phrase, c);
      if c == 0 then StepResult(TypingState((s.phraseIndex + 1) % |phrases|, 0, false), shown, TypeDelay)
      else StepResult(TypingState(s.phraseIndex, c, true), shown, DeleteDelay)
  }

  /** While typing, a step adds exactly one character; reaching the end of the
      phrase turns deletion on and schedules the long pause. */
  lemma TypingStepAddsOne(phrases: seq<string>, s: TypingState)
    requires NonEmptyPhrases(phrases) && Valid(phrases, s) && !s.deleting
    ensures Step(phrases, s).next.phraseIndex == s.phraseIndex
    ensures Step(phrases, s).next.charIndex == s.charIndex + 1
    ensures Step(phrases, s).next.deleting <==> s.charIndex + 1 == |phrases[s.phraseIndex]|
    ensures Step(phrases, s).delay == if s.charIndex + 1 == |phrases[s.phraseIndex]| then PauseDelay else TypeDelay
  {
  }

  /** While deleting, a step removes exactly one character; emptying the
      phrase turns deletion off and moves to the next phrase, wrapping to 0. */
  lemma DeletingStepRemovesOne(phrases: seq<string>, s: TypingState)
    requires NonEmptyPhrases(phrases) && Valid(phrases, s) && s.deleting
    ensures Step(phrases, s).next.charIndex == s.charIndex - 1
    ensures Step(phrases, s).next.deleting <==> s.charIndex > 1
    ensures Step(phrases, s).next.phraseIndex
              == if s.charIndex == 1 then (s.phraseIndex + 1) % |phrases| else s.phraseIndex
    ensures Step(phrases, s).delay == if s.charIndex == 1 then TypeDelay else DeleteDelay
  {
  }

  /** The state after `n` consecutive calls. */
  function Run(phrases: seq<string>, s: TypingState, n: nat): (r: TypingState)
    requires 0 <= s.phraseIndex < |phrases|
    ensures 0 <= r.phraseIndex < |phrases|
    ensures NonEmptyPhrases(phrases) && Valid(phrases, s) ==> Valid(phrases, r)
    decreases n
  {
    if n == 0 then s else Run(phrases, Step(phrases, s).next, n - 1)
  }

  lemma {:induction false} RunAdditive(phrases: seq<string>, s: TypingState, a: nat, b: nat)
    requires 0 <= s.phraseIndex < |phrases|
    ensures Run(phrases, s, a + b) == Run(phrases, Run(phrases, s, a), b)
    decreases a
  {
    if a > 0 {
      RunAdditive(phrases, Step(phrases, s).next, a - 1, b);
    }
  }

  /** From any point of the typing phase, the remaining characters are typed
      one per call and the cycler ends at the full phrase, deleting. */
  lemma {:induction false} TypingPhase(phrases: seq<string>, p: int, c: int)
    requires NonEmptyPhrases(phrases) && 0 <= p < |phrases|
    requires 0 <= c < |phrases[p]|
    ensures Run(phrases, TypingState(p, c, false), |phrases[p]| - c) == TypingState(p, |phrases[p]|, true)
    decreases |phrases[p]| - c
  {
    if c + 1 < |phrases[p]| {
      TypingPhase(phrases, p, c + 1);
    }
  }

  /** From any point of the deleting phase, the remaining characters are
      removed one per call and the cycler starts typing the next phrase. */
  lemma {:induction false} DeletingPhase(phrases: seq<string>, p: int, c: int)
    requires NonEmptyPhrases(phrases) && 0 <= p < |phrases|
    requires 1 <= c <= |phrases[p]|
    ensures Run(phrases, TypingState(p, c, true), c) == TypingState((p + 1) % |phrases|, 0, false)
    decreases c
  {
    if c > 1 {
      DeletingPhase(phrases, p, c - 1);
    }
  }

  /** Typing and deleting one phrase takes twice its length in calls, and the
      cycler then stands at the start of the next phrase in order. */
  lemma PhraseCycle(phrases: seq<string>, p: int)
    requires NonEmptyPhrases(phrases) && 0 <= p < |phrases|
    ensures Run(phrases, TypingState(p, 0, false), 2 * |phrases[p]|)
              == TypingState((p + 1) % |phrases|, 0, false)
  {
    var len := |phrases[p]|;
    RunAdditive(phrases, TypingState(p, 0, false), len, len);
    TypingPhase(phrases, p, 0);
    DeletingPhase(phrases, p, len);
  }

  lemma TitlePhrasesNonEmpty()
    ensures NonEmptyPhrases(TitlePhrases)
    ensures |TitlePhrases| == 3
    ensures |TitlePhrases[0]| == 25 && |TitlePhrases[1]| == 31 && |TitlePhrases[2]| == 41
  {
  }

  /** With three phrases, the cycler visits them in order and is back at
      the start of the first after typing and deleting all three. */
  lemma ThreePhraseCycle(phrases: seq<string>)
    requires NonEmptyPhrases(phrases) && |phrases| == 3
    ensures var a, b, c := 2 * |phrases[0]|, 2 * |phrases[1]|, 2 * |phrases[2]|;
            && Run(phrases, Initial, a) == TypingState(1, 0, false)
            && Run(phrases, Initial, a + b) == TypingState(2, 0, false)
            && Run(phrases, Initial, a + b + c) == Initial
  {
    var a, b, c := 2 * |phrases[0]|, 2 * |phrases[1]|, 2 * |phrases[2]|;
    var s1, s2 := TypingState(1, 0, false), TypingState(2, 0, false);
    PhraseCycle(phrases, 0);
    assert Run(phrases, Initial, a) == s1;
    PhraseCycle(phrases, 1);
    assert Run(phrases, s1, b) == s2;
    PhraseCycle(phrases, 2);
    assert Run(phrases, s2, c) == Initial;
    RunAdditive(phrases, Initial, a, b);
    RunAdditive(phrases, Initial, a + b, c);
  }

  /** The page's three phrases are visited in order, and after all three the
      cycler is back in its initial state: 2 * (25 + 31 + 41) calls. */
  lemma TitlePhrasesCycle()
    ensures Run(TitlePhrases, Initial, 50) == TypingState(1, 0, false)
    ensures Run(TitlePhrases, Initial, 112) == TypingState(2, 0, false)
    ensures Run(TitlePhrases, Initial, 194) == Initial
  {
    TitlePhrasesNonEmpty();
    ThreePhraseCycle(TitlePhrases);
  }
}
