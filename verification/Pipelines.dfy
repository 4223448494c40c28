module Pipelines {
  // PROJ pipelines as text (geodetic_engine/geodesy/transformation.py, lines 2122 to 2185).
  //
  // A chain of transformers is stated as one definition: their steps in turn, those of a
  // transformer run backwards in reverse, each with its inv flag turned over.

  import opened Options

  // ----- words

  /** str.split's spaces, of those a definition may hold. */
  predicate IsSpace(c: char) {
    c == ' ' || '\t' <= c <= '\r' || c as int == 0x1C || c as int == 0x1D || c as int == 0x1E || c as int == 0x1F
    || c as int == 0x85 || c as int == 0xA0
  }

  predicate IsWord(w: string) {
    w != "" && forall i :: 0 <= i < |w| ==> !IsSpace(w[i])
  }

  /** str.split. */
  function Words(text: string): (ws: seq<string>)
    ensures forall i :: 0 <= i < |ws| ==> IsWord(ws[i])
    ensures text != "" && !IsSpace(text[|text| - 1]) ==> ws != []
  {
    if text == "" then [] else
      var n := |text| - 1;
      var before := Words(text[..n]);
      if IsSpace(text[n]) then before
      else if n > 0 && !IsSpace(text[n - 1]) then before[..|before| - 1] + [before[|before| - 1] + [text[n]]]
      else before + [[text[n]]]
  }

  /** " ".join. */
  function Joined(ws: seq<string>): string {
    if ws == [] then "" else if |ws| == 1 then ws[0] else Joined(ws[..|ws| - 1]) + (" " + ws[|ws| - 1])
  }

  /** The words with a character put after them. */
  function Extended(before: seq<string>, joins: bool, c: char): seq<string>
    requires joins ==> before != []
  {
    if IsSpace(c) then before
    else if joins then before[..|before| - 1] + [before[|before| - 1] + [c]]
    else before + [[c]]
  }

  predicate EndsInWord(text: string) {
    text != "" && !IsSpace(text[|text| - 1])
  }

  lemma WordsNext(text: string, c: char)
    ensures EndsInWord(text) ==> Words(text) != []
    ensures Words(text + [c]) == Extended(Words(text), EndsInWord(text), c)
  {
    assert (text + [c])[..|text|] == text;
  }

  lemma ExtendedBack(front: seq<string>, back: seq<string>, joins: bool, c: char)
    requires joins ==> back != []
    ensures Extended(front + back, joins, c) == front + Extended(back, joins, c)
  {
    if joins {
      assert (front + back)[..|front + back| - 1] == front + back[..|back| - 1];
    }
  }

  /** What words are apart by, whichever of the spaces it is. */
  lemma {:induction false} AnySpaceSplits(a: string, space: char, b: string)
    requires space as int in {9, 10, 11, 12, 13, 28, 29, 30, 31, 32, 133, 160}
    ensures Words(a + ([space] + b)) == Words(a) + Words(b)
  {
    hide *;
    if b == "" {
      SpaceAlone(a, space);
      return;
    }
    var short, c := b[..|b| - 1], b[|b| - 1];
    AnySpaceSplits(a, space, short);
    WordsNext(short, c);
    WordsNext(a + ([space] + short), c);
    assert b == short + [c] && a + ([space] + b) == (a + ([space] + short)) + [c];
    EndsAlike(a, space, short);
    ExtendedBack(Words(a), Words(short), EndsInWord(short), c);
  }

  /** And by nothing else. */
  lemma {:induction false} WordsAreApart(text: string)
    ensures Words(text) == [text]
            <==> text != "" && forall i :: 0 <= i < |text| ==>
              text[i] as int !in {9, 10, 11, 12, 13, 28, 29, 30, 31, 32, 133, 160}
  {
    if IsWord(text) {
      WordIsItself(text);
    }
    assert forall i :: 0 <= i < |Words(text)| ==> IsWord(Words(text)[i]);
    assert [text][0] == text;
  }

  lemma SpaceSplits(a: string, b: string)
    ensures Words(a + (" " + b)) == Words(a) + Words(b)
  {
    AnySpaceSplits(a, ' ', b);
    assert " " == [' '];
  }

  lemma SpaceAlone(a: string, space: char)
    requires space as int in {9, 10, 11, 12, 13, 28, 29, 30, 31, 32, 133, 160}
    ensures Words(a + ([space] + "")) == Words(a) + Words("")
  {
    WordsNext(a, space);
    assert a + ([space] + "") == a + [space];
  }

  lemma EndsAlike(a: string, space: char, short: string)
    requires space as int in {9, 10, 11, 12, 13, 28, 29, 30, 31, 32, 133, 160}
    ensures EndsInWord(a + ([space] + short)) == EndsInWord(short)
  {}

  lemma {:induction false} WordIsItself(w: string)
    requires IsWord(w)
    ensures Words(w) == [w]
  {
    var n := |w| - 1;
    assert w == w[..n] + [w[n]];
    if n > 0 {
      WordIsItself(w[..n]);
      assert Words(w) == [] + [w[..n] + [w[n]]];
    } else {
      assert Words(w[..n]) == [] && Words(w) == [[w[n]]];
    }
  }

  ghost predicate AreWords(ws: seq<string>) {
    forall i :: 0 <= i < |ws| ==> IsWord(ws[i])
  }

  lemma {:induction false} WordsOfJoined(ws: seq<string>)
    requires AreWords(ws)
    ensures Words(Joined(ws)) == ws
  {
    if ws == [] {
      return;
    }
    var before, last := ws[..|ws| - 1], ws[|ws| - 1];
    assert ws == before + [last];
    WordIsItself(last);
    if |ws| == 1 {
      assert Joined(ws) == last;
      return;
    }
    WordsOfJoined(before);
    JoinedNext(before, last);
    hide *;
    SpaceSplits(Joined(before), last);
  }

  lemma JoinedNext(before: seq<string>, last: string)
    requires before != []
    ensures Joined(before + [last]) == Joined(before) + (" " + last)
  {
    assert (before + [last])[..|before|] == before;
  }

  // ----- _pipeline_steps

  /** removeprefix("+"). */
  function Stripped(w: string): string {
    if w != "" && w[0] == '+' then w[1..] else w
  }

  function Tokens(text: string): (ts: seq<string>)
    ensures |ts| == |Words(text)|
  {
    var ws := Words(text);
    seq(|ws|, i requires 0 <= i < |ws| => Stripped(ws[i]))
  }

  const PIPELINE := "proj=pipeline"
  const STEP := "step"
  const INVERSE := "inv"

  /** The tokens after each step keyword; None for a token before the first. */
  function Grouped(tokens: seq<string>): Option<seq<seq<string>>> {
    if tokens == [] then Some([]) else
      var before := Grouped(tokens[..|tokens| - 1]);
      var token := tokens[|tokens| - 1];
      if before.None? then None
      else if token == STEP then Some(before.value + [[]])
      else if before.value == [] then None
      else Some(Grown(before.value, token))
  }

  /** A token put at the end of the last group. */
  function Grown(groups: seq<seq<string>>, token: string): seq<seq<string>>
    requires groups != []
  {
    groups[..|groups| - 1] + [groups[|groups| - 1] + [token]]
  }

  /** The groups with a token in them, each joined. */
  function Texts(groups: seq<seq<string>>): seq<string> {
    if groups == [] then [] else
      Texts(groups[..|groups| - 1]) + if groups[|groups| - 1] == [] then [] else [Joined(groups[|groups| - 1])]
  }

  function Steps(definition: string): Option<seq<string>> {
    var tokens := Tokens(definition);
    if tokens == [] then None
    else if tokens[0] != PIPELINE then Some([Joined(tokens)])
    else
      var groups := Grouped(tokens[1..]);
      if groups.None? then None else Some(Texts(groups.value))
  }

  method PipelineSteps(definition: string) returns (r: Option<seq<string>>)
    ensures r == Steps(definition)
  {
    var tokens := Tokens(definition);
    if |tokens| == 0 {
      return None;
    }
    if tokens[0] != PIPELINE {
      return Some([Joined(tokens)]);
    }
    var groups := Group(tokens[1..]);
    if groups.None? {
      return None;
    }
    var texts := JoinAll(groups.value);
    r := Some(texts);
  }

  method Group(tokens: seq<string>) returns (r: Option<seq<seq<string>>>)
    ensures r == Grouped(tokens)
  {
    var groups: seq<seq<string>> := [];
    for i := 0 to |tokens|
      invariant Grouped(tokens[..i]) == Some(groups)
    {
      var token := tokens[i];
      assert tokens[..i + 1][..i] == tokens[..i];
      if token == STEP {
        groups := groups + [[]];
      } else if |groups| == 0 {
        NotGrouped(tokens, i + 1);
        return None;
      } else {
        groups := Grown(groups, token);
      }
    }
    assert tokens[..|tokens|] == tokens;
    r := Some(groups);
  }

  method JoinAll(groups: seq<seq<string>>) returns (texts: seq<string>)
    ensures texts == Texts(groups)
  {
    texts := [];
    for i := 0 to |groups|
      invariant Texts(groups[..i]) == texts
    {
      assert groups[..i + 1][..i] == groups[..i];
      if groups[i] != [] {
        texts := texts + [Joined(groups[i])];
      }
    }
    assert groups[..|groups|] == groups;
  }

  lemma {:induction false} NotGrouped(tokens: seq<string>, n: nat)
    requires n <= |tokens| && Grouped(tokens[..n]).None?
    ensures Grouped(tokens).None?
    decreases |tokens| - n
  {
    if n < |tokens| {
      assert tokens[..n + 1][..n] == tokens[..n];
      NotGrouped(tokens, n + 1);
    } else {
      assert tokens[..n] == tokens;
    }
  }

  /** There are no steps to give just for an empty definition, or one with a parameter outside any step. */
  lemma {:induction false} NoStepsExactly(definition: string)
    ensures Steps(definition).None? <==>
            var tokens := Tokens(definition);
                tokens == [] || (tokens[0] == PIPELINE && |tokens| > 1 && tokens[1] != STEP)
  {
    var tokens := Tokens(definition);
    if tokens != [] {
      GroupedExactly(tokens[1..]);
    }
  }

  lemma {:induction false} GroupedExactly(tokens: seq<string>)
    ensures Grouped(tokens).None? <==> tokens != [] && tokens[0] != STEP
    ensures Grouped(tokens).Some? && tokens != [] ==> Grouped(tokens).value != []
  {
    if |tokens| > 0 {
      GroupedExactly(tokens[..|tokens| - 1]);
    }
  }

  // ----- _inverted_step

  function Without(ws: seq<string>, w: string): seq<string> {
    if ws == [] then [] else Without(ws[..|ws| - 1], w) + if ws[|ws| - 1] == w then [] else [ws[|ws| - 1]]
  }

  /** list.remove: the first. */
  function Removed(ws: seq<string>, w: string): (r: seq<string>)
    requires w in ws
    ensures |r| == |ws| - 1
  {
    if ws[0] == w then ws[1..] else [ws[0]] + Removed(ws[1..], w)
  }

  function InvertedStep(step: string): string {
    var tokens := Words(step);
    if INVERSE in tokens then Joined(Removed(tokens, INVERSE)) else INVERSE + (" " + step)
  }

  // ----- _compose_pipeline

  datatype Leg = Leg(definition: string, inverse: bool)

  function Inverted(steps: seq<string>): (r: seq<string>)
    ensures |r| == |steps|
  {
    seq(|steps|, i requires 0 <= i < |steps| => InvertedStep(steps[|steps| - 1 - i]))
  }

  /** A leg's steps as they are run. */
  function LegSteps(leg: Leg): Option<seq<string>> {
    var steps := Steps(leg.definition);
    if steps.None? then None else Some(if leg.inverse then Inverted(steps.value) else steps.value)
  }

  function AllSteps(legs: seq<Leg>): Option<seq<string>> {
    if legs == [] then Some([]) else
      var before, last := AllSteps(legs[..|legs| - 1]), LegSteps(legs[|legs| - 1]);
      if before.None? || last.None? then None else Some(before.value + last.value)
  }

  function Keyed(steps: seq<string>): string {
    if steps == [] then PIPELINE else Keyed(steps[..|steps| - 1]) + (" " + (STEP + (" " + steps[|steps| - 1])))
  }

  /** One definition for the chain. */
  method ComposePipeline(legs: seq<Leg>) returns (r: Option<string>)
    ensures r.None? <==> AllSteps(legs).None?
    ensures r.Some? ==> r.value == if AllSteps(legs).value == [] then NOOP else Keyed(AllSteps(legs).value)
  {
    var composed: seq<string> := [];
    for i := 0 to |legs|
      invariant AllSteps(legs[..i]) == Some(composed)
    {
      assert legs[..i + 1][..i] == legs[..i];
      var flattened := PipelineSteps(legs[i].definition);
      if flattened.None? {
        NotComposed(legs, i + 1);
        return None;
      }
      var steps := flattened.value;
      if legs[i].inverse {
        steps := Inverted(steps);
      }
      composed := composed + steps;
    }
    assert legs[..|legs|] == legs;
    r := Some(if |composed| == 0 then NOOP else Keyed(composed));
  }

  const NOOP := "proj=noop"

  lemma {:induction false} NotComposed(legs: seq<Leg>, n: nat)
    requires n <= |legs| && AllSteps(legs[..n]).None?
    ensures AllSteps(legs).None?
    decreases |legs| - n
  {
    if n < |legs| {
      assert legs[..n + 1][..n] == legs[..n];
      NotComposed(legs, n + 1);
    } else {
      assert legs[..n] == legs;
    }
  }

  // ----- splitting gives the steps back

  /** A step as PROJ writes one: words, none of them a keyword or with a plus left on. */
  ghost predicate Tidy(step: string) {
    var ws := Words(step);
    step == Joined(ws) && ws != [] && AllPlain(ws)
  }

  ghost predicate AllPlain(ws: seq<string>) {
    forall i :: 0 <= i < |ws| ==> ws[i] != STEP && ws[i] != "" && ws[i][0] != '+'
  }

  ghost predicate AllTidy(steps: seq<string>) {
    forall i :: 0 <= i < |steps| ==> Tidy(steps[i])
  }

  /** The words of a keyed pipeline, after the first. */
  function KeyedWords(steps: seq<string>): seq<string> {
    if steps == [] then [] else KeyedWords(steps[..|steps| - 1]) + ([STEP] + Words(steps[|steps| - 1]))
  }

  lemma {:induction false} WordsOfKeyed(steps: seq<string>)
    ensures Words(Keyed(steps)) == [PIPELINE] + KeyedWords(steps)
  {
    hide *;
    if steps == [] {
      NoneKeyed();
      return;
    }
    var before, last := steps[..|steps| - 1], steps[|steps| - 1];
    WordsOfKeyed(before);
    StepIsAWord();
    KeyedNext(before, last);
    assert steps == before + [last];
    SpaceSplits(STEP, last);
    SpaceSplits(Keyed(before), STEP + (" " + last));
    Rejoined([PIPELINE], KeyedWords(before), [STEP] + Words(last));
  }

  lemma NoneKeyed()
    ensures Words(Keyed([])) == [PIPELINE] + KeyedWords([])
  {
    WordIsItself(PIPELINE);
  }

  lemma StepIsAWord()
    ensures Words(STEP) == [STEP]
  {
    WordIsItself(STEP);
  }

  lemma KeyedNext(before: seq<string>, last: string)
    ensures Keyed(before + [last]) == Keyed(before) + (" " + (STEP + (" " + last)))
    ensures KeyedWords(before + [last]) == KeyedWords(before) + ([STEP] + Words(last))
  {
    assert (before + [last])[..|before|] == before;
  }

  lemma Rejoined(a: seq<string>, b: seq<string>, c: seq<string>)
    ensures (a + b) + c == a + (b + c)
  {}

  /** A step keyword and the words after it are one more group. */
  lemma {:induction false} GroupedNext(tokens: seq<string>, ws: seq<string>)
    requires Grouped(tokens).Some? && STEP !in ws
    ensures Grouped(tokens + ([STEP] + ws)) == Some(Grouped(tokens).value + [ws])
  {
    var all := tokens + ([STEP] + ws);
    if ws == [] {
      assert all[..|all| - 1] == tokens;
    } else {
      var n := |ws| - 1;
      assert all[..|all| - 1] == tokens + ([STEP] + ws[..n]);
      assert all[|all| - 1] == ws[n];
      GroupedNext(tokens, ws[..n]);
      var groups := Grouped(tokens).value;
      assert (groups + [ws[..n]])[..|groups|] == groups;
      assert ws[..n] + [ws[n]] == ws;
    }
  }

  function AllWords(steps: seq<string>): seq<seq<string>> {
    if steps == [] then [] else AllWords(steps[..|steps| - 1]) + [Words(steps[|steps| - 1])]
  }

  lemma {:induction false} KeyedGroups(steps: seq<string>)
    requires AllTidy(steps)
    ensures Grouped(KeyedWords(steps)) == Some(AllWords(steps))
  {
    if steps != [] {
      var before, last := steps[..|steps| - 1], steps[|steps| - 1];
      KeyedGroups(before);
      assert Tidy(last);
      hide Words, Grouped;
      GroupedNext(KeyedWords(before), Words(last));
    }
  }

  lemma {:induction false} TextsOfWords(steps: seq<string>)
    requires AllTidy(steps)
    ensures Texts(AllWords(steps)) == steps
  {
    if steps == [] {
      return;
    }
    var before, last := steps[..|steps| - 1], steps[|steps| - 1];
    TextsOfWords(before);
    assert Tidy(last) && steps == before + [last];
    assert AllWords(steps) == AllWords(before) + [Words(last)];
    TextsNext(AllWords(before), Words(last));
    hide Words, Joined, Texts, AllWords;
  }

  lemma TextsNext(groups: seq<seq<string>>, ws: seq<string>)
    requires ws != []
    ensures Texts(groups + [ws]) == Texts(groups) + [Joined(ws)]
  {
    assert (groups + [ws])[..|groups|] == groups;
  }

  lemma {:induction false} KeyedHasNoPlus(steps: seq<string>)
    requires AllTidy(steps)
    ensures forall i :: 0 <= i < |KeyedWords(steps)| ==> Stripped(KeyedWords(steps)[i]) == KeyedWords(steps)[i]
  {
    if steps != [] {
      KeyedHasNoPlus(steps[..|steps| - 1]);
      assert Tidy(steps[|steps| - 1]);
      hide Words, Joined;
    }
  }

  /** Splitting the composed text gives the steps back. */
  lemma SplittingGivesBack(steps: seq<string>)
    requires AllTidy(steps)
    ensures Steps(Keyed(steps)) == Some(steps)
  {
    WordsOfKeyed(steps);
    KeyedGroups(steps);
    TextsOfWords(steps);
    KeyedHasNoPlus(steps);
    hide Words, Keyed, KeyedWords, Grouped, Texts, AllTidy;
    var tokens := Tokens(Keyed(steps));
    assert tokens[0] == PIPELINE;
    assert tokens[1..] == KeyedWords(steps);
  }

  // ----- as it is written

  /** The words as they are, or each with a plus in front, as PROJ takes either. */
  ghost predicate MaybePlus(ws: seq<string>, written: seq<string>) {
    |written| == |ws| && forall i :: 0 <= i < |ws| ==> written[i] == ws[i] || written[i] == ['+'] + ws[i]
  }

  /** Words of one step: none has a plus left on, and the first makes it no pipeline. */
  ghost predicate OneStep(ws: seq<string>) {
    && ws != [] && ws[0] != "proj=pipeline"
    && forall i :: 0 <= i < |ws| ==> IsWord(ws[i]) && ws[i][0] != '+'
  }

  /** A single step is stated as it is, and run backwards with the inv flag in front, or without the one it has. */
  lemma SingleIsStated(ws: seq<string>, written: seq<string>)
    requires OneStep(ws) && MaybePlus(ws, written)
    ensures LegSteps(Leg(Joined(written), false)) == Some([Joined(ws)])
    ensures "inv" !in ws ==> LegSteps(Leg(Joined(written), true)) == Some(["inv" + (" " + Joined(ws))])
    ensures "inv" in ws ==> LegSteps(Leg(Joined(written), true)) == Some([Joined(Removed(ws, "inv"))])
  {
    WordsOfJoined(written);
    WordsOfJoined(ws);
    assert Tokens(Joined(written)) == ws;
    hide Words, Joined;
    assert Steps(Joined(written)) == Some([Joined(ws)]);
    assert Inverted([Joined(ws)]) == [InvertedStep(Joined(ws))];
  }

  /** Each step of the one definition follows its keyword. */
  lemma KeyedIsWritten(steps: seq<string>, last: string)
    ensures Keyed([]) == "proj=pipeline" && Keyed(steps + [last]) == Keyed(steps) + " step " + last
    ensures NOOP == "proj=noop"
  {
    KeyedNext(steps, last);
    assert " step " == " " + ("step" + " ");
  }

  // ----- the flag

  /** The two parameters a step sits out by where its pipeline is run forwards, or backwards. */
  const OMIT_FORWARD := "omit_fwd"
  const OMIT_BACKWARD := "omit_inv"

  function CountOf(ws: seq<string>, w: string): nat {
    if ws == [] then 0 else CountOf(ws[1..], w) + if ws[0] == w then 1 else 0
  }

  lemma {:induction false} CountIsIn(ws: seq<string>, w: string)
    ensures CountOf(ws, w) > 0 <==> w in ws
  {
    if ws != [] {
      CountIsIn(ws[1..], w);
      assert ws == [ws[0]] + ws[1..];
    }
  }

  lemma {:induction false} WithoutFront(ws: seq<string>, x: string, w: string)
    ensures Without([x] + ws, w) == (if x == w then [] else [x]) + Without(ws, w)
  {
    if ws == [] {
      assert [x] + ws == [] + [x];
      assert Without([x], w) == Without([], w) + if x == w then [] else [x];
    } else {
      var n := |ws| - 1;
      assert ([x] + ws)[..n + 1] == [x] + ws[..n];
      WithoutFront(ws[..n], x, w);
    }
  }

  lemma {:induction false} RemovedOne(ws: seq<string>, w: string)
    requires w in ws
    ensures CountOf(Removed(ws, w), w) == CountOf(ws, w) - 1 && Without(Removed(ws, w), w) == Without(ws, w)
    ensures forall i :: 0 <= i < |Removed(ws, w)| ==> Removed(ws, w)[i] in ws
  {
    assert ws == [ws[0]] + ws[1..];
    WithoutFront(ws[1..], ws[0], w);
    if ws[0] != w {
      RemovedOne(ws[1..], w);
      assert Removed(ws, w)[1..] == Removed(ws[1..], w);
      WithoutFront(Removed(ws[1..], w), ws[0], w);
    }
  }

  lemma {:induction false} RemovedKeeps(ws: seq<string>, w: string, other: string)
    requires w in ws && other != w
    ensures other in Removed(ws, w) <==> other in ws
  {
    assert ws == [ws[0]] + ws[1..];
    if ws[0] != w {
      RemovedKeeps(ws[1..], w, other);
    }
  }

  /** The words of a step turned over. */
  lemma InvertedWords(step: string)
    ensures var ws := Words(step);
            Words(InvertedStep(step)) == if INVERSE in ws then Removed(ws, INVERSE) else [INVERSE] + ws
  {
    var ws := Words(step);
    if INVERSE in ws {
      RemovedOne(ws, INVERSE);
      assert AreWords(Removed(ws, INVERSE)) by {
        forall i | 0 <= i < |Removed(ws, INVERSE)| ensures IsWord(Removed(ws, INVERSE)[i]) {
          assert Removed(ws, INVERSE)[i] in ws;
        }
      }
      WordsOfJoined(Removed(ws, INVERSE));
    } else {
      WordIsItself(INVERSE);
      SpaceSplits(INVERSE, step);
    }
  }

  // ----- steps as PROJ writes them

  /** The definition is an operation on its own: no pipeline. */
  predicate IsBare(definition: string) {
    var tokens := Tokens(definition);
    tokens != [] && tokens[0] != PIPELINE
  }

  /** No word of the definition has a plus left on or is only a plus, and one that is no pipeline holds no
      step keyword. */
  ghost predicate Written(definition: string) {
    var tokens := Tokens(definition);
    && (forall i :: 0 <= i < |tokens| ==> tokens[i] != "" && tokens[i][0] != '+')
    && (IsBare(definition) ==> STEP !in tokens)
  }

  /** The steps of such a definition are tidy. */
  lemma WrittenIsTidy(definition: string)
    requires Written(definition) && Steps(definition).Some?
    ensures AllTidy(Steps(definition).value)
    ensures IsBare(definition) ==> Words(Steps(definition).value[0]) == Tokens(definition)
  {
    var tokens := Tokens(definition);
    TokensAreWords(definition);
    if tokens[0] != PIPELINE {
      WordsOfJoined(tokens);
    } else {
      GroupsAreWords(tokens[1..]);
      TextsAreTidy(Grouped(tokens[1..]).value);
    }
  }

  lemma TokensAreWords(definition: string)
    requires Written(definition)
    ensures AreWords(Tokens(definition))
  {}

  /** Words that make a tidy step. */
  ghost predicate Plainly(ws: seq<string>) {
    AreWords(ws) && AllPlain(ws)
  }

  lemma {:induction false} GroupsAreWords(tokens: seq<string>)
    requires AreWords(tokens) && forall i :: 0 <= i < |tokens| ==> tokens[i] != "" && tokens[i][0] != '+'
    ensures Grouped(tokens).Some? ==> forall i :: 0 <= i < |Grouped(tokens).value| ==> Plainly(Grouped(tokens).value[i])
  {
    hide IsWord;
    if tokens != [] {
      GroupsAreWords(tokens[..|tokens| - 1]);
    }
  }

  lemma {:induction false} TextsAreTidy(groups: seq<seq<string>>)
    requires forall i :: 0 <= i < |groups| ==> Plainly(groups[i])
    ensures AllTidy(Texts(groups))
  {
    if groups != [] {
      var last := groups[|groups| - 1];
      TextsAreTidy(groups[..|groups| - 1]);
      assert Plainly(last);
      WordsOfJoined(last);
      assert last != [] ==> Tidy(Joined(last));
      hide Words, Joined, Tidy;
    }
  }

  lemma WordsAreTidy(ws: seq<string>)
    requires ws != [] && Plainly(ws)
    ensures Tidy(Joined(ws)) && Words(Joined(ws)) == ws
  {
    WordsOfJoined(ws);
  }

  /** Every step does something besides being turned over. */
  ghost predicate AllDo(steps: seq<string>) {
    forall i :: 0 <= i < |steps| ==> Words(steps[i]) != [INVERSE]
  }

  /** A step turned over is as tidy. */
  lemma InvertedIsTidy(step: string)
    requires Tidy(step) && Words(step) != [INVERSE]
    ensures Tidy(InvertedStep(step))
  {
    if INVERSE in Words(step) {
      TidyWithout(step);
    } else {
      TidyWith(step);
    }
    hide *;
  }

  lemma TidyWithout(step: string)
    requires Tidy(step) && Words(step) != [INVERSE] && INVERSE in Words(step)
    ensures Tidy(InvertedStep(step))
  {
    var ws := Words(step);
    InvertedWords(step);
    RemovedIsPlain(ws, INVERSE);
    OnlyWord(ws, INVERSE);
    hide Words, Joined, Removed, AllPlain;
  }

  lemma OnlyWord(ws: seq<string>, w: string)
    requires w in ws
    ensures |ws| > 1 || ws == [w]
  {}

  lemma TidyWith(step: string)
    requires Tidy(step) && INVERSE !in Words(step)
    ensures Tidy(InvertedStep(step))
  {
    InvertedWords(step);
    JoinedFront(INVERSE, Words(step));
    hide Words, Joined, Removed;
  }

  lemma RemovedIsPlain(ws: seq<string>, w: string)
    requires w in ws && AllPlain(ws)
    ensures AllPlain(Removed(ws, w))
  {
    RemovedOne(ws, w);
    forall i | 0 <= i < |Removed(ws, w)| ensures Removed(ws, w)[i] != STEP && Removed(ws, w)[i] != "" &&
        Removed(ws, w)[i][0] != '+' {
      assert Removed(ws, w)[i] in ws;
    }
  }

  lemma {:induction false} JoinedFront(x: string, ws: seq<string>)
    requires ws != []
    ensures Joined([x] + ws) == x + (" " + Joined(ws))
  {
    var n := |ws| - 1;
    assert ([x] + ws)[..n + 1] == [x] + ws[..n];
    if n > 0 {
      JoinedFront(x, ws[..n]);
    } else {
      assert ws == [ws[0]] && [x] + ws[..0] == [x];
    }
  }

  lemma InvertedAreTidy(steps: seq<string>)
    requires AllTidy(steps) && AllDo(steps)
    ensures AllTidy(Inverted(steps))
  {
    hide Tidy, InvertedStep, Words;
    forall i | 0 <= i < |steps| ensures Tidy(Inverted(steps)[i]) {
      var step := steps[|steps| - 1 - i];
      assert Tidy(step) && Words(step) != [INVERSE];
      InvertedIsTidy(step);
    }
  }

  /** It is None just when some transformer's definition is empty or has a parameter outside any step. */
  lemma {:induction false} NotStatedExactly(legs: seq<Leg>)
    ensures AllSteps(legs).None? <==> exists i :: 0 <= i < |legs| && Steps(legs[i].definition).None?
  {
    hide Steps, Inverted;
    if legs != [] {
      var before, last := legs[..|legs| - 1], legs[|legs| - 1];
      NotStatedExactly(before);
      assert LegSteps(last).None? <==> Steps(last.definition).None?;
      assert forall i :: 0 <= i < |before| ==> before[i] == legs[i];
      if i :| 0 <= i < |legs| && Steps(legs[i].definition).None? {
        assert i < |before| ==> Steps(before[i].definition).None?;
      }
    }
  }
}
