module PipelineRuns {
  // Running transformers, and the one definition stated for them
  // (geodetic_engine/geodesy/transformation.py, lines 182 to 201 and 2122 to 2185).
  //
  // What a definition does is PROJ's, by the words PROJ reads. The original composes definitions from what it
  // splits at spaces.

  import opened Options
  import opened Pipelines
  import opened Quotes

  // ----- what steps mean

  /** What PROJ does with words, forwards and backwards; None where a position fails. */
  datatype World<!P> = World(forward: (seq<string>, P) -> Option<P>, backward: (seq<string>, P) -> Option<P>)

  /** What words do on their own: an inv flag turns them over. */
  function Done<P>(w: World<P>, ws: seq<string>, back: bool, p: P): Option<P> {
    var core := Without(ws, INVERSE);
    if (INVERSE in ws) != back then w.backward(core, p) else w.forward(core, p)
  }

  predicate Omitted(ws: seq<string>, back: bool) {
    (if back then OMIT_BACKWARD else OMIT_FORWARD) in ws
  }

  /** What words do as a step. Whether the step is omitted goes by the pipeline's direction, which
      the step's inv flag does not turn over. */
  function Meaning<P>(w: World<P>, ws: seq<string>, back: bool, p: P): Option<P> {
    if Omitted(ws, back) then Some(p) else Done(w, ws, back, p)
  }

  /** By name: either omit parameter leaves a position as it is in its own direction; without one, words without
      inv are run the way asked, and words with it the other way, the flag left out. */
  lemma MeaningByName<P>(w: World<P>, ws: seq<string>, p: P)
    ensures "omit_fwd" in ws ==> Meaning(w, ws, false, p) == Some(p)
    ensures "omit_inv" in ws ==> Meaning(w, ws, true, p) == Some(p)
    ensures "omit_fwd" !in ws ==>
      Meaning(w, ws, false, p) == if "inv" in ws then w.backward(Without(ws, "inv"), p) else w.forward(ws, p)
    ensures "omit_inv" !in ws ==>
      Meaning(w, ws, true, p) == if "inv" in ws then w.forward(Without(ws, "inv"), p) else w.backward(ws, p)
  {
    if "inv" !in ws {
      NoneLeftOut(ws, "inv");
    }
  }

  lemma {:induction false} NoneLeftOut(ws: seq<string>, w: string)
    requires w !in ws
    ensures Without(ws, w) == ws
  {
    if ws != [] {
      NoneLeftOut(ws[..|ws| - 1], w);
    }
  }

  /** Words turned over: their first inv flag taken off, or one put on. */
  function InvertedOf(ws: seq<string>): seq<string> {
    if INVERSE in ws then Removed(ws, INVERSE) else [INVERSE] + ws
  }

  /** The flag turns the words over: they are omitted in both directions, or in neither and have the flag
      at most once, as only the first is taken off. */
  predicate FlagTurns(ws: seq<string>) {
    Omitted(ws, false) == Omitted(ws, true) && (Omitted(ws, true) || CountOf(ws, INVERSE) <= 1)
  }

  /** At this position it does not matter that the words are not turned over. */
  ghost predicate SameAnyway<P>(w: World<P>, ws: seq<string>, back: bool, p: P) {
    if Omitted(ws, back) then Done(w, ws, !back, p) == Some(p)
    else if Omitted(ws, !back) then Done(w, ws, if CountOf(ws, INVERSE) <= 1 then !back else back, p) == Some(p)
    else w.forward(Without(ws, INVERSE), p) == w.backward(Without(ws, INVERSE), p)
  }

  /** Words turned over do backwards what they do forwards, and the other way round, just where
      the flag turns them over or that does not matter. */
  lemma TurnedOver<P>(w: World<P>, ws: seq<string>, back: bool, p: P)
    ensures Meaning(w, InvertedOf(ws), back, p) == Meaning(w, ws, !back, p)
            <==> FlagTurns(ws) || SameAnyway(w, ws, back, p)
  {
    var turned := InvertedOf(ws);
    CountIsIn(ws, INVERSE);
    CountIsIn(turned, INVERSE);
    OmittedAlike(ws, back);
    OmittedAlike(ws, !back);
    if INVERSE in ws {
      RemovedOne(ws, INVERSE);
    } else {
      WithoutFront(ws, INVERSE, INVERSE);
      assert ([INVERSE] + ws)[1..] == ws;
    }
    hide Removed, Omitted;
    assert Without(turned, INVERSE) == Without(ws, INVERSE);
  }

  lemma OmittedAlike(ws: seq<string>, back: bool)
    ensures Omitted(InvertedOf(ws), back) == Omitted(ws, back)
  {
    var omit := if back then OMIT_BACKWARD else OMIT_FORWARD;
    if INVERSE in ws {
      RemovedKeeps(ws, INVERSE, omit);
    }
  }

  /** A world where every position moves, one way forwards and the other way backwards. */
  function Counting(): World<int> {
    World((ws, p) => Some(p + 1), (ws, p) => Some(p - 1))
  }

  // ----- steps turned over

  /** The first inv the original finds is part of a quoted value. */
  predicate FlagQuoted(step: string) {
    Quoted(Words(step), INVERSE, false)
  }

  lemma TidyIsRead(step: string)
    requires Tidy(step)
    ensures Read(step) == Glue(Words(step)) != [] && Open(step) == Odd(Words(step))
  {
    ReadJoined(Words(step));
  }

  /** PROJ reads an inverted step as its own words turned over, just where that first inv is no part of a
      quoted value. */
  lemma InvertedReads(step: string)
    requires Tidy(step) && Words(step) != [INVERSE]
    ensures Read(InvertedStep(step)) == InvertedOf(Read(step)) <==> !FlagQuoted(step)
    ensures Open(InvertedStep(step)) == Open(step)
  {
    TidyIsRead(step);
    InvertedIsTidy(step);
    TidyIsRead(InvertedStep(step));
    InvertedWords(step);
    hide *;
    if INVERSE in Words(step) {
      RemovedReads(Words(step));
      InvertedWith(Words(step));
    } else {
      FlaggedReads(Words(step));
      InvertedWithout(Words(step));
    }
    Unquoted(step);
  }

  lemma Unquoted(step: string)
    ensures FlagQuoted(step) <==> Quoted(Words(step), INVERSE, false)
  {}

  lemma InvertedWith(ws: seq<string>)
    requires INVERSE in ws
    ensures InvertedOf(ws) == Removed(ws, INVERSE)
  {}

  lemma InvertedWithout(ws: seq<string>)
    requires INVERSE !in ws
    ensures InvertedOf(ws) == [INVERSE] + ws
  {}

  /** With a flag to take off. */
  lemma RemovedReads(ws: seq<string>)
    requires INVERSE in ws
    ensures Glue(Removed(ws, INVERSE)) == InvertedOf(Glue(ws)) <==> !Quoted(ws, INVERSE, false)
    ensures Odd(Removed(ws, INVERSE)) == Odd(ws)
  {
    RemovedOutside(ws, INVERSE, INVERSE, false);
    if !Quoted(ws, INVERSE, false) {
      RemovedGlued(ws, INVERSE);
    } else {
      CountGlued(ws, INVERSE);
      CountGlued(Removed(ws, INVERSE), INVERSE);
      InvertedCount(Glue(ws));
    }
    hide Glue, Quoted, Outside, CountOf, Odd;
  }

  /** Turning over changes how often the flag is there. */
  lemma InvertedCount(ws: seq<string>)
    ensures CountOf(InvertedOf(ws), INVERSE) != CountOf(ws, INVERSE)
  {
    if INVERSE in ws {
      RemovedOne(ws, INVERSE);
    } else {
      assert ([INVERSE] + ws)[1..] == ws;
    }
  }

  /** With none: it is read as none, and the one put on as one. */
  lemma FlaggedReads(ws: seq<string>)
    requires INVERSE !in ws
    ensures INVERSE !in Glue(ws) && Glue([INVERSE] + ws) == [INVERSE] + Glue(ws) && !Quoted(ws, INVERSE, false)
    ensures InvertedOf(Glue(ws)) == [INVERSE] + Glue(ws) && Odd([INVERSE] + ws) == Odd(ws)
  {
    OpenHasQuote(INVERSE);
    OddJoined([INVERSE], ws);
    assert !Odd([INVERSE]) && Glue([INVERSE]) == [INVERSE] + Glue([]);
    GlueJoined([INVERSE], ws);
    CountGlued(ws, INVERSE);
    OutsideIsIn(ws, INVERSE, false);
    CountIsIn(Glue(ws), INVERSE);
    NotIn(ws, INVERSE, false);
  }

  lemma {:induction false} NotIn(ws: seq<string>, w: string, odd: bool)
    requires w !in ws
    ensures !Quoted(ws, w, odd)
  {
    if ws != [] {
      NotIn(ws[1..], w, odd != Open(ws[0]));
    }
  }

  /** The original's inverse turns a step over: it is omitted in both directions, or in neither, and then has
      its flag at most once, and no inv of a quoted value is taken for it. */
  predicate TurnsOver(step: string) {
    var ws := Read(step);
    && Omitted(ws, false) == Omitted(ws, true)
    && (Omitted(ws, true) || (!FlagQuoted(step) && CountOf(ws, INVERSE) <= 1))
  }

  /** Taking an inv out of a quoted value leaves the words outside as they are. */
  lemma QuotedFlagsAlike(step: string, word: string)
    requires Tidy(step) && FlagQuoted(step) && Words(step) != [INVERSE] && '"' !in word
    ensures word in Read(InvertedStep(step)) <==> word in Read(step)
  {
    var ws := Words(step);
    TidyIsRead(step);
    InvertedIsTidy(step);
    TidyIsRead(InvertedStep(step));
    InvertedWords(step);
    if INVERSE !in ws {
      NotIn(ws, INVERSE, false);
    }
    RemovedOutside(ws, INVERSE, word, false);
    CountGlued(ws, word);
    CountGlued(Removed(ws, INVERSE), word);
    CountIsIn(Glue(ws), word);
    CountIsIn(Glue(Removed(ws, INVERSE)), word);
    hide *;
    Unquoted(step);
  }

  lemma FlagsHaveNoQuote()
    ensures '"' !in INVERSE && '"' !in OMIT_FORWARD && '"' !in OMIT_BACKWARD
  {}

  lemma {:induction false} InvertedOmittedAlike(step: string, back: bool)
    requires Tidy(step) && Words(step) != [INVERSE]
    ensures Omitted(Read(InvertedStep(step)), back) == Omitted(Read(step), back)
  {
    InvertedReads(step);
    FlagsHaveNoQuote();
    if FlagQuoted(step) {
      QuotedFlagsAlike(step, if back then OMIT_BACKWARD else OMIT_FORWARD);
    } else {
      OmittedAlike(Read(step), back);
    }
    hide Read, InvertedStep, InvertedOf, Words, FlagQuoted;
  }

  /** A step that turns over does, inverted, backwards what it does forwards, and the other way round. */
  lemma InvertedRuns<P>(w: World<P>, step: string, back: bool, p: P)
    requires Tidy(step) && Words(step) != [INVERSE] && TurnsOver(step)
    ensures Meaning(w, Read(InvertedStep(step)), back, p) == Meaning(w, Read(step), !back, p)
  {
    InvertedOmittedAlike(step, false);
    InvertedOmittedAlike(step, true);
    InvertedReads(step);
    TurnedOver(w, Read(step), back, p);
    hide Read, InvertedStep, InvertedOf, Words, FlagQuoted, Done, Omitted, Tidy;
  }

  /** It does so in every world and at every position just where it turns over. */
  lemma TurnedOverExactly(step: string, back: bool)
    requires Tidy(step) && Words(step) != [INVERSE]
    ensures (forall w: World<int>, p: int ::
               Meaning(w, Read(InvertedStep(step)), back, p) == Meaning(w, Read(step), !back, p))
            <==> TurnsOver(step)
  {
    hide Read, InvertedStep, Words, Meaning, TurnsOver, Tidy;
    if TurnsOver(step) {
      forall w: World<int>, p: int
        ensures Meaning(w, Read(InvertedStep(step)), back, p) == Meaning(w, Read(step), !back, p)
      {
        InvertedRuns(w, step, back, p);
      }
    } else {
      CountsOtherwise(step, back);
    }
  }

  lemma CountsOtherwise(step: string, back: bool)
    requires Tidy(step) && Words(step) != [INVERSE] && !TurnsOver(step)
    ensures Meaning(Counting(), Read(InvertedStep(step)), back, 0) != Meaning(Counting(), Read(step), !back, 0)
  {
    InvertedOmittedAlike(step, back);
    InvertedReads(step);
    FlagsHaveNoQuote();
    if FlagQuoted(step) {
      QuotedFlagsAlike(step, INVERSE);
    } else {
      TurnedOver(Counting(), Read(step), back, 0);
      assert !SameAnyway(Counting(), Read(step), back, 0);
    }
    hide Read, InvertedStep, InvertedOf, Words, FlagQuoted, Omitted, Tidy;
  }

  // ----- running

  /** Steps run in turn. */
  function Forward<P>(w: World<P>, steps: seq<seq<string>>, p: P): Option<P> {
    if steps == [] then Some(p) else
      var q := Forward(w, steps[..|steps| - 1], p);
      if q.None? then None else Meaning(w, steps[|steps| - 1], false, q.value)
  }

  /** Steps run backwards: from the last, each backwards. */
  function Backward<P>(w: World<P>, steps: seq<seq<string>>, p: P): Option<P> {
    if steps == [] then Some(p) else
      var q := Meaning(w, steps[|steps| - 1], true, p);
      if q.None? then None else Backward(w, steps[..|steps| - 1], q.value)
  }

  /** PROJ's words of a definition, without the pluses before them. */
  function ReadTokens(text: string): (ts: seq<string>)
    ensures |ts| == |Read(text)|
  {
    var ws := Read(text);
    seq(|ws|, i requires 0 <= i < |ws| => Stripped(ws[i]))
  }

  function NonEmpty(groups: seq<seq<string>>): seq<seq<string>> {
    if groups == [] then [] else
      NonEmpty(groups[..|groups| - 1]) + if groups[|groups| - 1] == [] then [] else [groups[|groups| - 1]]
  }

  /** PROJ's steps of a definition. */
  function ReadSteps(text: string): Option<seq<seq<string>>> {
    var tokens := ReadTokens(text);
    if tokens == [] then None
    else if tokens[0] != PIPELINE then Some([tokens])
    else
      var groups := Grouped(tokens[1..]);
      if groups.None? then None else Some(NonEmpty(groups.value))
  }

  /** A transformer run in one direction. One that is no pipeline has nothing omitted. */
  function RunLeg<P>(w: World<P>, leg: Leg, p: P): Option<P>
    requires ReadSteps(leg.definition).Some?
  {
    var tokens, steps := ReadTokens(leg.definition), ReadSteps(leg.definition).value;
    if tokens[0] != PIPELINE then Done(w, tokens, leg.inverse, p)
    else if leg.inverse then Backward(w, steps, p)
    else Forward(w, steps, p)
  }

  /** Transformers run one after the other. */
  function RunLegs<P>(w: World<P>, legs: seq<Leg>, p: P): Option<P>
    requires forall i :: 0 <= i < |legs| ==> ReadSteps(legs[i].definition).Some?
  {
    if legs == [] then Some(p) else
      var q := RunLegs(w, legs[..|legs| - 1], p);
      if q.None? then None else RunLeg(w, legs[|legs| - 1], q.value)
  }

  /** _Pipeline.run: each transformer on what the one before gave. */
  method Run<P>(w: World<P>, legs: seq<Leg>, p: P) returns (r: Option<P>)
    requires forall i :: 0 <= i < |legs| ==> ReadSteps(legs[i].definition).Some?
    ensures r == RunLegs(w, legs, p)
  {
    r := Some(p);
    for i := 0 to |legs|
      invariant r == RunLegs(w, legs[..i], p)
    {
      assert legs[..i + 1][..i] == legs[..i];
      if r.Some? {
        r := RunLeg(w, legs[i], r.value);
      }
    }
    assert legs[..|legs|] == legs;
  }

  lemma {:induction false} ForwardJoined<P>(w: World<P>, a: seq<seq<string>>, b: seq<seq<string>>, p: P)
    ensures Forward(w, a + b, p) == var q := Forward(w, a, p); if q.None? then None else Forward(w, b, q.value)
  {
    hide Meaning;
    if b == [] {
      assert a + b == a;
      return;
    }
    var short, last := b[..|b| - 1], b[|b| - 1];
    ForwardJoined(w, a, short, p);
    assert a + b == (a + short) + [last] && b == short + [last];
    ForwardNext(w, a + short, last, p);
    var q := Forward(w, a, p);
    if q.Some? {
      ForwardNext(w, short, last, q.value);
    }
  }

  lemma ForwardNext<P>(w: World<P>, steps: seq<seq<string>>, last: seq<string>, p: P)
    ensures Forward(w, steps + [last], p) ==
            var q := Forward(w, steps, p);
            if q.None? then None else Meaning(w, last, false, q.value)
  {
    assert (steps + [last])[..|steps|] == steps;
  }

  lemma OneStep<P>(w: World<P>, step: seq<string>, p: P)
    ensures Forward(w, [step], p) == Meaning(w, step, false, p)
    ensures Backward(w, [step], p) == Meaning(w, step, true, p)
  {
    assert [step][..0] == [];
    assert Forward(w, [step][..0], p) == Some(p);
  }

  function ReadAll(steps: seq<string>): (r: seq<seq<string>>)
    ensures |r| == |steps|
  {
    seq(|steps|, i requires 0 <= i < |steps| => Read(steps[i]))
  }

  ghost predicate AllTurnOver(steps: seq<string>) {
    forall i :: 0 <= i < |steps| ==> TurnsOver(steps[i])
  }

  /** Steps inverted, in reverse, run forwards as the steps run backwards. */
  lemma {:induction false} InvertedRunsBackward<P>(w: World<P>, steps: seq<string>, p: P)
    requires AllTidy(steps) && AllDo(steps) && AllTurnOver(steps)
    ensures Forward(w, ReadAll(Inverted(steps)), p) == Backward(w, ReadAll(steps), p)
  {
    hide Meaning, Words, TurnsOver, InvertedStep, Read, Tidy;
    if steps != [] {
      var before, last := steps[..|steps| - 1], steps[|steps| - 1];
      var first := InvertedStep(last);
      assert Tidy(last) && Words(last) != [INVERSE] && TurnsOver(last);
      assert ReadAll(Inverted(steps)) == [Read(first)] + ReadAll(Inverted(before));
      assert ReadAll(steps) == ReadAll(before) + [Read(last)];
      ForwardJoined(w, [Read(first)], ReadAll(Inverted(before)), p);
      InvertedRuns(w, last, false, p);
      OneStep(w, Read(first), p);
      BackwardNext(w, ReadAll(before), Read(last), p);
      var q := Meaning(w, Read(last), true, p);
      if q.Some? {
        InvertedRunsBackward(w, before, q.value);
      }
    }
  }

  lemma BackwardNext<P>(w: World<P>, steps: seq<seq<string>>, last: seq<string>, p: P)
    ensures Backward(w, steps + [last], p) ==
            var q := Meaning(w, last, true, p);
            if q.None? then None else Backward(w, steps, q.value)
  {
    assert (steps + [last])[..|steps|] == steps;
  }

  // ----- what PROJ reads of a definition

  /** The words of a pipeline, after its first. */
  function Flat(groups: seq<seq<string>>): seq<string> {
    if groups == [] then [] else Flat(groups[..|groups| - 1]) + ([STEP] + groups[|groups| - 1])
  }

  function GlueAll(groups: seq<seq<string>>): (r: seq<seq<string>>)
    ensures |r| == |groups|
  {
    seq(|groups|, i requires 0 <= i < |groups| => Glue(groups[i]))
  }

  lemma FlatNext(groups: seq<seq<string>>, last: seq<string>)
    ensures Flat(groups + [last]) == Flat(groups) + ([STEP] + last)
    ensures GlueAll(groups + [last]) == GlueAll(groups) + [Glue(last)]
  {
    assert (groups + [last])[..|groups|] == groups;
  }

  /** Grouping takes words apart and leaves none out. */
  lemma {:induction false} FlatOfGrouped(tokens: seq<string>)
    requires Grouped(tokens).Some?
    ensures Flat(Grouped(tokens).value) == tokens
  {
    if tokens == [] {
      return;
    }
    var before, token := tokens[..|tokens| - 1], tokens[|tokens| - 1];
    FlatOfGrouped(before);
    var groups := Grouped(before).value;
    assert tokens == before + [token];
    if token == STEP {
      FlatNext(groups, []);
      assert [STEP] + [] == [STEP];
    } else {
      var front, last := groups[..|groups| - 1], groups[|groups| - 1];
      assert groups == front + [last];
      FlatNext(front, last);
      FlatNext(front, last + [token]);
      assert Grown(groups, token) == front + [last + [token]];
      assert Flat(front) + ([STEP] + (last + [token])) == (Flat(front) + ([STEP] + last)) + [token];
    }
  }

  ghost predicate AllEven(groups: seq<seq<string>>) {
    forall i :: 0 <= i < |groups| ==> !Odd(groups[i])
  }

  /** Steps that leave no value open are glued apart. */
  lemma {:induction false} FlatGlued(groups: seq<seq<string>>)
    requires AllEven(groups)
    ensures !Odd(Flat(groups)) && Glue(Flat(groups)) == Flat(GlueAll(groups))
  {
    if groups == [] {
      return;
    }
    var front, last := groups[..|groups| - 1], groups[|groups| - 1];
    assert groups == front + [last] && !Odd(last);
    FlatGlued(front);
    KeywordGlued(last);
    hide Odd, Glue;
    FlatNext(front, last);
    FlatNext(GlueAll(front), Glue(last));
    GlueJoined(Flat(front), [STEP] + last);
    OddJoined(Flat(front), [STEP] + last);
  }

  lemma KeywordGlued(ws: seq<string>)
    ensures Glue([STEP] + ws) == [STEP] + Glue(ws) && Odd([STEP] + ws) == Odd(ws)
  {
    AloneGlued(STEP, ws);
  }

  /** A word without a quote is glued to nothing after it. */
  lemma AloneGlued(w: string, ws: seq<string>)
    requires '"' !in w
    ensures Glue([w] + ws) == [w] + Glue(ws) && Odd([w] + ws) == Odd(ws)
  {
    OpenHasQuote(w);
    OddJoined([w], ws);
    assert !Odd([w]) && Glue([w]) == [w] + Glue([]);
    GlueJoined([w], ws);
  }

  ghost predicate NoKeyword(groups: seq<seq<string>>) {
    forall i :: 0 <= i < |groups| ==> STEP !in groups[i]
  }

  lemma {:induction false} GroupedFlat(groups: seq<seq<string>>)
    requires NoKeyword(groups)
    ensures Grouped(Flat(groups)) == Some(groups)
  {
    if groups != [] {
      var front, last := groups[..|groups| - 1], groups[|groups| - 1];
      assert groups == front + [last] && STEP !in last;
      GroupedFlat(front);
      hide Grouped;
      FlatNext(front, last);
      GroupedNext(Flat(front), last);
    }
  }

  lemma GluedHasNoKeyword(groups: seq<seq<string>>)
    requires NoKeyword(groups)
    ensures NoKeyword(GlueAll(groups))
  {
    forall i | 0 <= i < |groups| ensures STEP !in Glue(groups[i]) {
      CountGlued(groups[i], STEP);
      OutsideIsIn(groups[i], STEP, false);
      CountIsIn(Glue(groups[i]), STEP);
    }
  }

  /** What PROJ reads of steps that leave no value open are those steps, each glued. */
  lemma GlueThenGroup(groups: seq<seq<string>>)
    requires AllEven(groups) && NoKeyword(groups)
    ensures Grouped(Glue(Flat(groups))) == Some(GlueAll(groups))
  {
    FlatGlued(groups);
    GluedHasNoKeyword(groups);
    GroupedFlat(GlueAll(groups));
  }

  ghost predicate AllClosed(steps: seq<string>) {
    forall i :: 0 <= i < |steps| ==> !Open(steps[i])
  }

  /** The groups of closed steps, and what PROJ reads of each. */
  lemma {:induction false} TextsAreRead(groups: seq<seq<string>>)
    requires AllPlainly(groups) && AllClosed(Texts(groups))
    ensures AllEven(groups) && NoKeyword(groups) && ReadAll(Texts(groups)) == NonEmpty(GlueAll(groups))
  {
    hide *;
    if groups == [] {
      NoTextsRead();
      return;
    }
    var front, last := groups[..|groups| - 1], groups[|groups| - 1];
    assert groups == front + [last];
    LastPlainly(front, last);
    TextsSplit(front, last);
    FlatNext(front, last);
    NonEmptyNext(GlueAll(front), Glue(last));
    if last == [] {
      assert Texts(front) + [] == Texts(front);
      NoWordsEven();
    } else {
      LastClosed(Texts(front), Joined(last));
      ReadAllNext(Texts(front), Joined(last));
      SomeGlued(last);
    }
    ReadJoined(last);
    TextsAreRead(front);
    EvenNext(front, last);
  }

  ghost predicate AllPlainly(groups: seq<seq<string>>) {
    forall i :: 0 <= i < |groups| ==> Plainly(groups[i])
  }

  lemma NoTextsRead()
    ensures AllEven([]) && NoKeyword([]) && ReadAll(Texts([])) == NonEmpty(GlueAll([]))
  {}

  lemma LastPlainly(front: seq<seq<string>>, last: seq<string>)
    requires AllPlainly(front + [last])
    ensures AllPlainly(front) && Plainly(last) && AreWords(last) && STEP !in last
  {
    var groups := front + [last];
    assert groups[|front|] == last && forall i :: 0 <= i < |front| ==> groups[i] == front[i];
    hide AreWords;
  }

  lemma SomeGlued(ws: seq<string>)
    requires ws != []
    ensures Glue(ws) != []
  {}

  lemma NonEmptyNext(groups: seq<seq<string>>, last: seq<string>)
    ensures NonEmpty(groups + [last]) == NonEmpty(groups) + if last == [] then [] else [last]
    ensures NonEmpty(groups) + [] == NonEmpty(groups)
  {
    assert (groups + [last])[..|groups|] == groups;
  }

  lemma NoWordsEven()
    ensures !Odd([]) && Glue([]) == []
  {}

  lemma TextsSplit(front: seq<seq<string>>, last: seq<string>)
    ensures Texts(front + [last]) == Texts(front) + if last == [] then [] else [Joined(last)]
  {
    assert (front + [last])[..|front|] == front;
  }

  // ----- what a chain's definitions must be

  /** What a definition must be for its transformer to be stated as steps. It is written as PROJ writes it: what
      PROJ reads are the original's words, glued, so that a quoted value holds single spaces and no word with a
      plus; and each step closes its quotes. If it is no pipeline, nothing would be omitted in one; and if it is
      run backwards, its steps turn over. */
  ghost predicate Stated(leg: Leg) {
    var steps, tokens := Steps(leg.definition), ReadTokens(leg.definition);
    && steps.Some? && Written(leg.definition) && AllClosed(steps.value)
    && tokens == Glue(Tokens(leg.definition))
    && (IsBare(leg.definition) ==> !Omitted(tokens, false) && !Omitted(tokens, true))
    && (leg.inverse ==> AllTurnOver(steps.value) && AllDo(steps.value))
  }

  ghost predicate AllStated(legs: seq<Leg>) {
    forall i :: 0 <= i < |legs| ==> Stated(legs[i])
  }

  ghost predicate NoPlus(ws: seq<string>) {
    forall i :: 0 <= i < |ws| ==> ws[i] != "" && ws[i][0] != '+'
  }

  /** Words without pluses and with single spaces between, as PROJ gives a definition, are read so. */
  lemma SingleSpacesAreRead(ws: seq<string>)
    requires AreWords(ws) && NoPlus(ws)
    ensures Tokens(Joined(ws)) == ws && ReadTokens(Joined(ws)) == Glue(ws)
  {
    WordsOfJoined(ws);
    ReadJoined(ws);
    GlueHasNoPlus(ws);
    hide *;
    TokensByWords(Joined(ws));
    AllStripped(ws, Tokens(Joined(ws)));
    AllStripped(Glue(ws), ReadTokens(Joined(ws)));
  }

  lemma TokensByWords(text: string)
    ensures AreStripped(Words(text), Tokens(text)) && AreStripped(Read(text), ReadTokens(text))
  {
    hide Words, Read;
  }

  ghost predicate AreStripped(ws: seq<string>, tokens: seq<string>) {
    |tokens| == |ws| && forall i :: 0 <= i < |ws| ==> tokens[i] == Stripped(ws[i])
  }

  lemma AllStripped(ws: seq<string>, tokens: seq<string>)
    requires AreStripped(ws, tokens) && NoPlus(ws)
    ensures tokens == ws
  {}

  lemma {:induction false} GlueHasNoPlus(ws: seq<string>)
    requires NoPlus(ws)
    ensures NoPlus(Glue(ws))
    decreases |ws|
  {
    if |ws| > 1 && Open(ws[0]) {
      GlueHasNoPlus([ws[0] + (" " + ws[1])] + ws[2..]);
    } else if ws != [] {
      GlueHasNoPlus(ws[1..]);
    }
  }

  /** PROJ's steps of such a definition are the original's, as PROJ reads each. */
  lemma StatedIsRead(leg: Leg)
    requires Stated(leg)
    ensures ReadSteps(leg.definition) == Some(ReadAll(Steps(leg.definition).value))
    ensures ReadTokens(leg.definition) != [] && (IsBare(leg.definition) <==> ReadTokens(leg.definition)[0] != PIPELINE)
    ensures IsBare(leg.definition) ==> ReadSteps(leg.definition) == Some([ReadTokens(leg.definition)])
    ensures AllTidy(Steps(leg.definition).value)
  {
    WrittenIsTidy(leg.definition);
    TokensAreWords(leg.definition);
    hide *;
    StatedMeans(leg);
    if IsBare(leg.definition) {
      BareIsRead(leg.definition);
    } else {
      PipelineIsRead(leg.definition);
    }
  }

  lemma StatedMeans(leg: Leg)
    requires Stated(leg)
    ensures Steps(leg.definition).Some? && Written(leg.definition) && AllClosed(Steps(leg.definition).value)
    ensures ReadTokens(leg.definition) == Glue(Tokens(leg.definition))
    ensures IsBare(leg.definition) ==>
            !Omitted(ReadTokens(leg.definition), false) && !Omitted(ReadTokens(leg.definition), true)
    ensures leg.inverse ==> AllTurnOver(Steps(leg.definition).value) && AllDo(Steps(leg.definition).value)
  {}

  lemma BareIsRead(definition: string)
    requires IsBare(definition) && Written(definition) && AreWords(Tokens(definition))
    requires ReadTokens(definition) == Glue(Tokens(definition))
    ensures ReadTokens(definition) != [] && ReadTokens(definition)[0] != PIPELINE
    ensures Steps(definition).Some?
    ensures ReadSteps(definition) == Some(ReadAll(Steps(definition).value)) == Some([ReadTokens(definition)])
  {
    var tokens := Tokens(definition);
    ReadJoined(tokens);
    FirstGluedWord(tokens);
    hide Glue, Read, Joined, Words;
    assert ReadAll([Joined(tokens)]) == [Glue(tokens)];
  }

  /** A pipeline's first word stays what it is, and no other word becomes it. */
  lemma FirstGluedWord(tokens: seq<string>)
    requires tokens != []
    ensures Glue(tokens) != [] && (Glue(tokens)[0] == PIPELINE <==> tokens[0] == PIPELINE)
    decreases |tokens|
  {
    assert '"' !in PIPELINE;
    OpenHasQuote(PIPELINE);
    if |tokens| > 1 && Open(tokens[0]) {
      if '"' !in tokens[0] {
        OpenHasQuote(tokens[0]);
      }
      GlueStartsOpen(tokens);
    }
  }

  lemma {:induction false} GlueStartsOpen(ws: seq<string>)
    requires ws != [] && '"' in ws[0]
    ensures Glue(ws) != [] && '"' in Glue(ws)[0]
    decreases |ws|
  {
    if |ws| > 1 && Open(ws[0]) {
      GlueStartsOpen([ws[0] + (" " + ws[1])] + ws[2..]);
    }
  }

  lemma PipelineIsRead(definition: string)
    requires !IsBare(definition) && Steps(definition).Some? && Written(definition) && AreWords(Tokens(definition))
    requires AllClosed(Steps(definition).value) && ReadTokens(definition) == Glue(Tokens(definition))
    ensures ReadTokens(definition) != [] && ReadTokens(definition)[0] == PIPELINE
    ensures ReadSteps(definition) == Some(ReadAll(Steps(definition).value))
  {
    var tokens := Tokens(definition);
    var rest := tokens[1..];
    assert tokens == [PIPELINE] + rest && '"' !in PIPELINE;
    AloneGlued(PIPELINE, rest);
    GroupsAreWords(rest);
    hide Glue, Read, Words, Open, Odd, AllClosed, Plainly, Texts, Grouped, NonEmpty;
    var groups := Grouped(rest).value;
    FlatOfGrouped(rest);
    TextsAreRead(groups);
    GlueThenGroup(groups);
    assert ReadTokens(definition)[1..] == Glue(rest);
  }

  // ----- the composed definition

  lemma {:induction false} JoinedBack(a: seq<string>, b: seq<string>)
    requires a != [] && b != []
    ensures Joined(a + b) == Joined(a) + (" " + Joined(b))
  {
    var short, last := b[..|b| - 1], b[|b| - 1];
    assert b == short + [last] && a + b == (a + short) + [last];
    JoinedNext(a + short, last);
    if short == [] {
      assert a + short == a && b == [last];
    } else {
      JoinedBack(a, short);
      JoinedNext(short, last);
    }
  }

  lemma {:induction false} KeyedIsJoined(steps: seq<string>)
    requires AllTidy(steps)
    ensures Keyed(steps) == Joined([PIPELINE] + KeyedWords(steps)) && AreWords(KeyedWords(steps))
    ensures KeyedWords(steps) == Flat(AllWords(steps))
  {
    hide *;
    if steps == [] {
      NoneKeyedJoined();
      return;
    }
    var before, last := steps[..|steps| - 1], steps[|steps| - 1];
    assert steps == before + [last];
    LastTidy(before, last);
    KeyedIsJoined(before);
    KeyedNext(before, last);
    AllWordsNext(before, last);
    FlatNext(AllWords(before), Words(last));
    KeyedJoinedNext(KeyedWords(before), Words(last));
  }

  lemma NoneKeyedJoined()
    ensures Keyed([]) == Joined([PIPELINE] + KeyedWords([])) && AreWords(KeyedWords([]))
    ensures KeyedWords([]) == Flat(AllWords([]))
  {
    assert [PIPELINE] + KeyedWords([]) == [PIPELINE];
  }

  lemma LastTidy(before: seq<string>, last: string)
    requires AllTidy(before + [last])
    ensures AllTidy(before) && Tidy(last)
    ensures last == Joined(Words(last)) && Words(last) != [] && AreWords(Words(last)) && NoPlus(Words(last))
    ensures STEP !in Words(last)
  {
    var steps := before + [last];
    assert Tidy(steps[|before|]);
    assert forall i :: 0 <= i < |before| ==> steps[i] == before[i];
    hide Words, Joined;
  }

  lemma AllWordsNext(before: seq<string>, last: string)
    ensures AllWords(before + [last]) == AllWords(before) + [Words(last)]
  {
    assert (before + [last])[..|before|] == before;
  }

  lemma KeyedJoinedNext(ws: seq<string>, last: seq<string>)
    requires last != [] && AreWords(ws) && AreWords(last)
    ensures Joined([PIPELINE] + (ws + ([STEP] + last)))
            == Joined([PIPELINE] + ws) + (" " + (STEP + (" " + Joined(last))))
    ensures AreWords(ws + ([STEP] + last))
  {
    StepIsAWord();
    assert Words(STEP) == [STEP];
    hide Joined, Words;
    assert [PIPELINE] + (ws + ([STEP] + last)) == ([PIPELINE] + ws) + ([STEP] + last);
    JoinedBack([PIPELINE] + ws, [STEP] + last);
    JoinedBack([STEP], last);
    OneJoined(STEP);
  }

  lemma OneJoined(w: string)
    ensures Joined([w]) == w
  {}

  lemma {:induction false} WordsAreRead(steps: seq<string>)
    requires AllTidy(steps) && AllClosed(steps)
    ensures AllEven(AllWords(steps)) && NoKeyword(AllWords(steps)) && GlueAll(AllWords(steps)) == ReadAll(steps)
  {
    hide *;
    if steps == [] {
      NothingRead();
      return;
    }
    var before, last := steps[..|steps| - 1], steps[|steps| - 1];
    assert steps == before + [last];
    LastTidy(before, last);
    LastClosed(before, last);
    WordsAreRead(before);
    TidyIsRead(last);
    AllWordsNext(before, last);
    FlatNext(AllWords(before), Words(last));
    ReadAllNext(before, last);
    EvenNext(AllWords(before), Words(last));
  }

  lemma NothingRead()
    ensures AllEven(AllWords([])) && NoKeyword(AllWords([])) && GlueAll(AllWords([])) == ReadAll([])
  {}

  lemma LastClosed(before: seq<string>, last: string)
    requires AllClosed(before + [last])
    ensures AllClosed(before) && !Open(last)
  {
    var steps := before + [last];
    assert steps[|before|] == last && forall i :: 0 <= i < |before| ==> steps[i] == before[i];
    hide Open;
  }

  lemma ReadAllNext(before: seq<string>, last: string)
    ensures ReadAll(before + [last]) == ReadAll(before) + [Read(last)]
  {
    hide Read;
  }

  lemma EvenNext(groups: seq<seq<string>>, last: seq<string>)
    requires AllEven(groups) && NoKeyword(groups) && !Odd(last) && STEP !in last
    ensures AllEven(groups + [last]) && NoKeyword(groups + [last])
  {
    hide Odd;
  }

  /** PROJ reads a composed definition as the steps it was composed of. */
  lemma KeyedIsRead(steps: seq<string>)
    requires AllTidy(steps) && AllClosed(steps)
    ensures ReadTokens(Keyed(steps)) != [] && ReadTokens(Keyed(steps))[0] == PIPELINE
    ensures ReadSteps(Keyed(steps)) == Some(ReadAll(steps))
  {
    KeyedIsJoined(steps);
    WordsAreRead(steps);
    KeyedHasNoPluses(steps);
    PipelineIsAWord();
    hide *;
    var ws := [PIPELINE] + KeyedWords(steps);
    assert AreWords(ws) by {
      AreWordsJoined([PIPELINE], KeyedWords(steps));
    }
    SingleSpacesAreRead(ws);
    GlueThenGroup(AllWords(steps));
    AllAreSome(steps);
    KeyedReadSteps(steps);
  }

  lemma PipelineIsAWord()
    ensures AreWords([PIPELINE]) && '"' !in PIPELINE && PIPELINE[0] != '+'
  {}

  lemma AreWordsJoined(a: seq<string>, b: seq<string>)
    requires AreWords(a) && AreWords(b)
    ensures AreWords(a + b)
  {}

  lemma {:induction false} KeyedHasNoPluses(steps: seq<string>)
    requires AllTidy(steps)
    ensures NoPlus([PIPELINE] + KeyedWords(steps))
  {
    hide *;
    PipelineIsAWord();
    if steps == [] {
      NoneKeyedPlus();
    } else {
      var before, last := steps[..|steps| - 1], steps[|steps| - 1];
      assert steps == before + [last];
      LastTidy(before, last);
      KeyedHasNoPluses(before);
      KeyedNext(before, last);
      KeyedPlus([PIPELINE] + KeyedWords(before), Words(last));
      assert ([PIPELINE] + KeyedWords(before)) + ([STEP] + Words(last))
          == [PIPELINE] + (KeyedWords(before) + ([STEP] + Words(last)));
    }
  }

  lemma NoneKeyedPlus()
    ensures NoPlus([PIPELINE] + KeyedWords([]))
  {}

  lemma KeyedPlus(a: seq<string>, ws: seq<string>)
    requires NoPlus(a) && NoPlus(ws)
    ensures NoPlus(a + ([STEP] + ws))
  {}

  /** No step is without words. */
  lemma AllAreSome(steps: seq<string>)
    requires AllTidy(steps)
    ensures NonEmpty(ReadAll(steps)) == ReadAll(steps)
  {
    forall i | 0 <= i < |steps| ensures ReadAll(steps)[i] != [] {
      TidyIsRead(steps[i]);
    }
    AllKept(ReadAll(steps));
  }

  lemma {:induction false} AllKept(groups: seq<seq<string>>)
    requires forall i :: 0 <= i < |groups| ==> groups[i] != []
    ensures NonEmpty(groups) == groups
  {
    if groups != [] {
      AllKept(groups[..|groups| - 1]);
    }
  }

  lemma KeyedReadSteps(steps: seq<string>)
    requires ReadTokens(Keyed(steps)) == Glue([PIPELINE] + KeyedWords(steps))
    requires Grouped(Glue(KeyedWords(steps))) == Some(ReadAll(steps)) && NonEmpty(ReadAll(steps)) == ReadAll(steps)
    ensures ReadTokens(Keyed(steps)) != [] && ReadTokens(Keyed(steps))[0] == PIPELINE
    ensures ReadSteps(Keyed(steps)) == Some(ReadAll(steps))
  {
    PipelineIsAWord();
    AloneGlued(PIPELINE, KeyedWords(steps));
    hide Glue, Read, Keyed, KeyedWords, Grouped, NonEmpty;
    assert ReadTokens(Keyed(steps))[1..] == Glue(KeyedWords(steps));
  }

  /** A composed definition run is its steps run. */
  lemma KeyedRun<P>(w: World<P>, steps: seq<string>, p: P)
    requires AllTidy(steps) && AllClosed(steps)
    ensures ReadSteps(Keyed(steps)) == Some(ReadAll(steps))
    ensures RunLeg(w, Leg(Keyed(steps), false), p) == Forward(w, ReadAll(steps), p)
    ensures RunLeg(w, Leg(Keyed(steps), true), p) == Backward(w, ReadAll(steps), p)
  {
    KeyedIsRead(steps);
    hide Read, Keyed, ReadSteps, ReadTokens, AllTidy, AllClosed, Forward, Backward, Done, ReadAll;
  }

  // ----- the chain

  lemma LegStepsAreTidy(leg: Leg)
    requires Stated(leg)
    ensures LegSteps(leg).Some? && AllTidy(LegSteps(leg).value) && AllClosed(LegSteps(leg).value)
  {
    StatedIsRead(leg);
    StatedMeans(leg);
    if leg.inverse {
      InvertedAreTidy(Steps(leg.definition).value);
      InvertedAreClosed(Steps(leg.definition).value);
    }
    hide Tidy, Steps, Inverted, AllTurnOver, AllDo, AllTidy, AllClosed, ReadTokens, ReadSteps, ReadAll, Stated;
  }

  lemma InvertedAreClosed(steps: seq<string>)
    requires AllTidy(steps) && AllDo(steps) && AllClosed(steps)
    ensures AllClosed(Inverted(steps))
  {
    hide Tidy, InvertedStep, Words, Open;
    forall i | 0 <= i < |steps| ensures !Open(Inverted(steps)[i]) {
      var step := steps[|steps| - 1 - i];
      assert Tidy(step) && Words(step) != [INVERSE] && !Open(step);
      InvertedReads(step);
    }
  }

  lemma LegRun<P>(w: World<P>, leg: Leg, p: P)
    requires Stated(leg)
    ensures LegSteps(leg).Some? && ReadSteps(leg.definition).Some?
    ensures Forward(w, ReadAll(LegSteps(leg).value), p) == RunLeg(w, leg, p)
  {
    StatedIsRead(leg);
    StatedMeans(leg);
    var steps := Steps(leg.definition).value;
    if leg.inverse {
      InvertedRunsBackward(w, steps, p);
    }
    OneStep(w, ReadTokens(leg.definition), p);
    hide Read, ReadTokens, ReadSteps, ReadAll, Steps, Done, Omitted, AllTidy, AllTurnOver, AllDo, Inverted, Stated,
      Forward, Backward, IsBare;
  }

  /** The steps of the whole chain, run in turn, are its transformers run in turn. */
  lemma {:induction false} ChainOfSteps<P>(w: World<P>, legs: seq<Leg>, p: P)
    requires AllStated(legs)
    ensures forall i :: 0 <= i < |legs| ==> ReadSteps(legs[i].definition).Some?
    ensures AllSteps(legs).Some? && AllTidy(AllSteps(legs).value) && AllClosed(AllSteps(legs).value)
    ensures Forward(w, ReadAll(AllSteps(legs).value), p) == RunLegs(w, legs, p)
  {
    hide Tidy, Open, Read, Steps, Meaning, RunLeg, Stated, LegSteps, ReadSteps;
    if legs != [] {
      var before, last := legs[..|legs| - 1], legs[|legs| - 1];
      assert Stated(last) && legs == before + [last];
      LegStepsAreTidy(last);
      LegRun(w, last, p);
      ChainOfSteps(w, before, p);
      var some, more := AllSteps(before).value, LegSteps(last).value;
      ForwardJoined(w, ReadAll(some), ReadAll(more), p);
      assert ReadAll(some + more) == ReadAll(some) + ReadAll(more);
      var q := RunLegs(w, before, p);
      if q.Some? {
        LegRun(w, last, q.value);
      }
    }
  }

  /** Running the composed definition is running the transformers in turn, those inverted backwards; and it
      splits into all of their steps, or into the one that does nothing where there are none. */
  lemma ComposedRunsAsChain<P>(w: World<P>, legs: seq<Leg>, p: P)
    requires AllStated(legs) && forall q: P :: w.forward([NOOP], q) == Some(q)
    ensures AllSteps(legs).Some? && forall i :: 0 <= i < |legs| ==> ReadSteps(legs[i].definition).Some?
    ensures var steps := AllSteps(legs).value; var text := if steps == [] then NOOP else Keyed(steps);
            && Steps(text) == Some(if steps == [] then [NOOP] else steps)
            && ReadSteps(text).Some? && RunLeg(w, Leg(text, false), p) == RunLegs(w, legs, p)
  {
    hide *;
    ChainOfSteps(w, legs, p);
    if AllSteps(legs).value == [] {
      NothingIsRun(w, p);
      NoStepsRun(w, p);
    } else {
      SplittingGivesBack(AllSteps(legs).value);
      KeyedRun(w, AllSteps(legs).value, p);
    }
  }

  lemma NothingIsRun<P>(w: World<P>, p: P)
    requires forall q: P :: w.forward([NOOP], q) == Some(q)
    ensures Steps(NOOP) == Some([NOOP]) && ReadSteps(NOOP).Some? && RunLeg(w, Leg(NOOP, false), p) == Some(p)
  {
    NothingIsAWord();
    WordIsItself(NOOP);
    OneRead(NOOP);
    hide *;
    TokensByWords(NOOP);
    AllStripped([NOOP], Tokens(NOOP));
    AllStripped([NOOP], ReadTokens(NOOP));
    OneWordIsRun(w, NOOP, p);
  }

  lemma NothingIsAWord()
    ensures IsWord(NOOP) && NoPlus([NOOP]) && NOOP != PIPELINE && NOOP != INVERSE
  {}

  lemma OneWordIsRun<P>(w: World<P>, word: string, p: P)
    requires Tokens(word) == ReadTokens(word) == [word] && word != PIPELINE && word != INVERSE
    requires w.forward([word], p) == Some(p)
    ensures Steps(word) == Some([word]) && ReadSteps(word).Some? && RunLeg(w, Leg(word, false), p) == Some(p)
  {
    OneJoined(word);
    assert [word][..0] == [] && Without([word], INVERSE) == Without([], INVERSE) + [word] == [word];
    assert Done(w, [word], false, p) == Some(p);
    hide Tokens, ReadTokens, Joined, Done;
  }

  lemma NoStepsRun<P>(w: World<P>, p: P)
    ensures Forward(w, ReadAll([]), p) == Some(p)
  {}

  /** Any pipeline composed of closed steps may be composed again, backwards where they turn over. */
  lemma KeyedIsStated(steps: seq<string>, inverse: bool)
    requires AllTidy(steps) && AllClosed(steps) && (inverse ==> AllTurnOver(steps) && AllDo(steps))
    ensures Stated(Leg(Keyed(steps), inverse))
  {
    SplittingGivesBack(steps);
    KeyedIsJoined(steps);
    KeyedHasNoPluses(steps);
    PipelineIsAWord();
    hide *;
    AreWordsJoined([PIPELINE], KeyedWords(steps));
    SingleSpacesAreRead([PIPELINE] + KeyedWords(steps));
    StatedByWords(Leg(Keyed(steps), inverse), steps, KeyedWords(steps));
  }

  lemma StatedByWords(leg: Leg, steps: seq<string>, ws: seq<string>)
    requires Steps(leg.definition) == Some(steps) && AllClosed(steps)
    requires Tokens(leg.definition) == [PIPELINE] + ws && NoPlus([PIPELINE] + ws)
    requires ReadTokens(leg.definition) == Glue(Tokens(leg.definition))
    requires leg.inverse ==> AllTurnOver(steps) && AllDo(steps)
    ensures Stated(leg)
  {
    hide Steps, Tokens, ReadTokens, Glue, AllClosed, AllTurnOver, AllDo, Omitted;
  }

  // ----- steps that are not turned over

  /** For any step that does not turn over, the transformer of that one step shows it: run backwards,
      it is not what its composed definition does. */
  lemma NotTurnedOverIsMissed(step: string) returns (p: int)
    requires Tidy(step) && !Open(step) && Words(step) != [INVERSE] && !TurnsOver(step)
    ensures var leg, text := Leg(Keyed([step]), true), Keyed([InvertedStep(step)]);
            && LegSteps(leg) == Some([InvertedStep(step)])
            && ReadSteps(leg.definition).Some? && ReadSteps(text).Some?
            && RunLeg(Counting(), Leg(text, false), p) != RunLeg(Counting(), leg, p)
  {
    p := 0;
    InvertedIsTidy(step);
    InvertedReads(step);
    hide *;
    CountsOtherwise(step, false);
    OneTidy(step);
    OneTidy(InvertedStep(step));
    KeyedRun(Counting(), [step], p);
    KeyedRun(Counting(), [InvertedStep(step)], p);
    SplittingGivesBack([step]);
    OneInverted(step);
    OneIsRead(step);
    OneIsRead(InvertedStep(step));
    OneStep(Counting(), Read(step), p);
    OneStep(Counting(), Read(InvertedStep(step)), p);
  }

  lemma OneTidy(step: string)
    requires Tidy(step) && !Open(step)
    ensures AllTidy([step]) && AllClosed([step])
  {}

  lemma OneIsRead(step: string)
    ensures ReadAll([step]) == [Read(step)]
  {}

  lemma OneInverted(step: string)
    requires Steps(Keyed([step])) == Some([step])
    ensures LegSteps(Leg(Keyed([step]), true)) == Some([InvertedStep(step)])
  {
    hide Steps, Keyed, InvertedStep;
    assert Inverted([step]) == [InvertedStep(step)];
  }

  /** What is to be known of the words of a step for whether it turns over. */
  lemma TurnsOverByWords(ws: seq<string>)
    requires ws != [] && Plainly(ws)
    ensures Tidy(Joined(ws)) && Words(Joined(ws)) == ws && Read(Joined(ws)) == Glue(ws) && Open(Joined(ws)) == Odd(ws)
    ensures FlagQuoted(Joined(ws)) == Quoted(ws, INVERSE, false)
  {
    WordsAreTidy(ws);
    TidyIsRead(Joined(ws));
  }

  lemma {:induction false} NothingGlued(ws: seq<string>)
    requires forall i :: 0 <= i < |ws| ==> '"' !in ws[i]
    ensures Glue(ws) == ws && !Odd(ws)
  {
    if ws != [] {
      AloneGlued(ws[0], ws[1..]);
      NothingGlued(ws[1..]);
      assert ws == [ws[0]] + ws[1..];
    }
  }

  /** Three such steps. The first is PROJ's own, from a vertical shift in an interpolation CRS: a grid shift
      left out backwards. It has no inv flag. */
  const SHIFT := ["proj=hgridshift", "grids=g", OMIT_BACKWARD]

  lemma ShiftIsMissed()
    ensures Tidy(Joined(SHIFT)) && Words(Joined(SHIFT)) == SHIFT && !Open(Joined(SHIFT))
    ensures INVERSE !in SHIFT && !TurnsOver(Joined(SHIFT))
  {
    hide *;
    ShiftIsLeftOut();
    TurnsOverByWords(SHIFT);
    NothingGlued(SHIFT);
    TurnsOverMeans(Joined(SHIFT));
  }

  lemma TurnsOverMeans(step: string)
    ensures TurnsOver(step) ==> Omitted(Read(step), false) == Omitted(Read(step), true)
    ensures TurnsOver(step) && !Omitted(Read(step), true) ==> !FlagQuoted(step) && CountOf(Read(step), INVERSE) <= 1
  {}

  lemma ShiftIsLeftOut()
    ensures |SHIFT| == 3 && Plainly(SHIFT) && INVERSE !in SHIFT && forall i :: 0 <= i < 3 ==> '"' !in SHIFT[i]
    ensures Omitted(SHIFT, true) && !Omitted(SHIFT, false)
  {
    assert OMIT_FORWARD[5] != OMIT_BACKWARD[5];
    assert SHIFT[2] == OMIT_BACKWARD && OMIT_FORWARD !in SHIFT;
  }

  /** The second is inverted twice over. */
  const TWICE := [INVERSE, INVERSE, "proj=utm"]

  lemma TwiceIsMissed()
    ensures Tidy(Joined(TWICE)) && Words(Joined(TWICE)) == TWICE && !Open(Joined(TWICE))
    ensures CountOf(TWICE, INVERSE) == 2 && !TurnsOver(Joined(TWICE))
  {
    hide *;
    TwiceIsInverted();
    TurnsOverByWords(TWICE);
    NothingGlued(TWICE);
    TurnsOverMeans(Joined(TWICE));
  }

  lemma TwiceIsInverted()
    ensures |TWICE| == 3 && Plainly(TWICE) && CountOf(TWICE, INVERSE) == 2
    ensures !Omitted(TWICE, true) && forall i :: 0 <= i < 3 ==> '"' !in TWICE[i]
  {
    assert TWICE[1..] == [INVERSE, "proj=utm"] && TWICE[1..][1..] == ["proj=utm"];
    assert CountOf(TWICE[1..][1..], INVERSE) == 0;
  }

  /** The third shifts by a grid in a file whose name holds the word inv: it is taken out of the name. */
  const NAMED := ["proj=hgridshift", "grids=\"my", INVERSE, "b.gsb\""]

  lemma NameIsMissed()
    ensures Tidy(Joined(NAMED)) && Words(Joined(NAMED)) == NAMED && !Open(Joined(NAMED))
    ensures Read(Joined(NAMED)) == ["proj=hgridshift", "grids=\"my inv b.gsb\""] && !TurnsOver(Joined(NAMED))
    ensures Words(InvertedStep(Joined(NAMED))) == ["proj=hgridshift", "grids=\"my", "b.gsb\""]
  {
    hide *;
    NameIsPlain();
    NameIsQuoted();
    NameIsGlued();
    TurnsOverByWords(NAMED);
    TurnsOverMeans(Joined(NAMED));
    InvertedWords(Joined(NAMED));
    NameIsCut();
  }

  /** A file name that only holds a space turns over with its step. */
  const SPACED := ["proj=hgridshift", "grids=\"my", "b.gsb\""]

  lemma SpaceIsStated()
    ensures Read(Joined(SPACED)) == ["proj=hgridshift", "grids=\"my b.gsb\""]
    ensures Stated(Leg(Keyed([Joined(SPACED)]), true))
  {
    hide *;
    SpaceIsPlain();
    SpaceIsGlued();
    TurnsOverByWords(SPACED);
    NotIn(SPACED, INVERSE, false);
    SpaceTurnsOver(Joined(SPACED));
    OneTidy(Joined(SPACED));
    KeyedIsStated([Joined(SPACED)], true);
  }

  lemma SpaceIsPlain()
    ensures |SPACED| == 3 && Plainly(SPACED) && INVERSE !in SPACED
  {}

  lemma SpaceIsGlued()
    ensures Glue(SPACED) == ["proj=hgridshift", "grids=\"my b.gsb\""] && !Odd(SPACED)
    ensures !Omitted(Glue(SPACED), true) && !Omitted(Glue(SPACED), false) && INVERSE !in Glue(SPACED)
  {
    NameOpens();
    hide Open;
    var rest := [SPACED[1], SPACED[2]];
    AloneGlued(SPACED[0], rest);
    assert SPACED == [SPACED[0]] + rest;
    GlueTwo(SPACED[1], SPACED[2]);
    FirstGlued(rest);
    OpenGlued(SPACED[1], SPACED[2]);
    NoWordsEven();
    assert SPACED[1] + (" " + SPACED[2]) == "grids=\"my b.gsb\"";
    assert [SPACED[1] + (" " + SPACED[2])] + rest[2..] == [SPACED[1] + (" " + SPACED[2])];
  }

  lemma SpaceTurnsOver(step: string)
    requires !Omitted(Read(step), true) && !Omitted(Read(step), false) && INVERSE !in Read(step) && !FlagQuoted(step)
    requires Words(step) == SPACED && |SPACED| == 3
    ensures AllTurnOver([step]) && AllDo([step])
  {
    CountIsIn(Read(step), INVERSE);
    hide Read, Omitted, FlagQuoted, Words;
  }

  lemma NameIsPlain()
    ensures |NAMED| == 4 && Plainly(NAMED) && INVERSE in NAMED
  {
    assert NAMED[2] == INVERSE;
  }

  lemma NameIsCut()
    requires INVERSE in NAMED
    ensures Removed(NAMED, INVERSE) == ["proj=hgridshift", "grids=\"my", "b.gsb\""]
  {
    assert NAMED[1..] == [NAMED[1], NAMED[2], NAMED[3]] && NAMED[1..][1..] == [NAMED[2], NAMED[3]];
    assert NAMED[1..][1..][1..] == [NAMED[3]];
    assert Removed([NAMED[2], NAMED[3]], INVERSE) == [NAMED[3]];
  }

  lemma NameOpens()
    ensures Open("grids=\"my") && Open("b.gsb\"") && !Open(INVERSE) && !Open("proj=hgridshift")
  {
    OpenJoined("grids=\"", "my");
    OpenJoined("grids=", "\"");
    assert "grids=" + "\"" == "grids=\"" && "grids=\"" + "my" == "grids=\"my";
    OpenHasQuote("grids=");
    OpenHasQuote("my");
    OpenJoined("b.gsb", "\"");
    assert "b.gsb" + "\"" == "b.gsb\"";
    OpenHasQuote("b.gsb");
    OpenHasQuote(INVERSE);
    OpenHasQuote("proj=hgridshift");
    QuoteOpens();
  }

  lemma QuoteOpens()
    ensures Open("\"")
  {
    assert "\""[..0] == "";
  }

  lemma NameIsQuoted()
    ensures Quoted(NAMED, INVERSE, false)
  {
    NameOpens();
    assert NAMED[1..][0] == NAMED[1] && NAMED[1..][1..][0] == INVERSE;
    assert "proj=hgridshift" != INVERSE && NAMED[1] != INVERSE;
    hide Open;
    assert Quoted(NAMED[1..][1..], INVERSE, true);
    assert Quoted(NAMED[1..], INVERSE, false);
  }

  lemma NameIsGlued()
    ensures Glue(NAMED) == ["proj=hgridshift", "grids=\"my inv b.gsb\""] && !Odd(NAMED)
    ensures !Omitted(Glue(NAMED), true)
  {
    NameOpens();
    hide Open;
    var rest := [NAMED[1], INVERSE, NAMED[3]];
    AloneGlued(NAMED[0], rest);
    assert NAMED == [NAMED[0]] + rest;
    GlueThree(NAMED[1], INVERSE, NAMED[3]);
    assert NAMED[1] + (" " + INVERSE) == "grids=\"my inv";
    assert "grids=\"my inv" + (" " + NAMED[3]) == "grids=\"my inv b.gsb\"";
  }

  lemma GlueThree(a: string, b: string, c: string)
    requires Open(a) && !Open(b) && Open(c)
    ensures Glue([a, b, c]) == [(a + (" " + b)) + (" " + c)] && !Odd([a, b, c])
  {
    OpenGlued(a, b);
    OpenGlued(a + (" " + b), c);
    var two := [a + (" " + b), c];
    assert [a + (" " + b)] + [a, b, c][2..] == two;
    assert [two[0] + (" " + two[1])] + two[2..] == [(a + (" " + b)) + (" " + c)];
    var one := [(a + (" " + b)) + (" " + c)];
    assert Glue(one) == one + Glue([]);
    FirstGlued([a, b, c]);
    FirstGlued(two);
    assert one[1..] == [] && !Odd([]);
  }
}
