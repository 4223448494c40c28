module Quotes {
  // What PROJ reads of a definition that the original splits at spaces
  // (geodetic_engine/geodesy/transformation.py, lines 2154 to 2185).
  //
  // PROJ puts a value that holds spaces in double quotes, one within the value doubled, and reads it as
  // one word. Split at spaces, such a value is several; they are its words again once glued.

  import opened Options
  import opened Pipelines

  /** An odd number of quotes: a quoted value is open at the end. */
  predicate Open(s: string) {
    s != "" && Open(s[..|s| - 1]) != (s[|s| - 1] == '"')
  }

  lemma {:induction false} OpenJoined(a: string, b: string)
    ensures Open(a + b) == (Open(a) != Open(b))
  {
    if b == "" {
      assert a + b == a;
    } else {
      var n := |b| - 1;
      assert (a + b)[..|a| + n] == a + b[..n];
      OpenJoined(a, b[..n]);
    }
  }

  lemma {:induction false} OpenHasQuote(s: string)
    requires '"' !in s
    ensures !Open(s)
  {
    if s != "" {
      OpenHasQuote(s[..|s| - 1]);
    }
  }

  /** PROJ's words: apart at the spaces outside quotes. */
  function Read(text: string): (ws: seq<string>)
    ensures Inside(text) ==> ws != []
  {
    if text == "" then [] else
      var n := |text| - 1;
      var before := Read(text[..n]);
      if Open(text[..n]) || (EndsInWord(text[..n]) && !IsSpace(text[n])) then Longer(before, [text[n]])
      else if IsSpace(text[n]) then before
      else before + [[text[n]]]
  }

  /** What comes next goes on with the last word, unless it is a space outside quotes. */
  predicate Inside(text: string) {
    Open(text) || EndsInWord(text)
  }

  function Longer(ws: seq<string>, more: string): (r: seq<string>)
    requires ws != []
    ensures |r| == |ws|
  {
    ws[..|ws| - 1] + [ws[|ws| - 1] + more]
  }

  lemma ReadNext(text: string, c: char)
    ensures Inside(text) ==> Read(text) != []
    ensures Read(text + [c]) ==
            if Open(text) || (EndsInWord(text) && !IsSpace(c)) then Longer(Read(text), [c])
            else if IsSpace(c) then Read(text)
            else Read(text) + [[c]]
  {
    assert (text + [c])[..|text|] == text;
  }

  lemma InsideNext(text: string, c: char)
    requires Open(text) || !IsSpace(c)
    ensures c == ' ' ==> Open(text + [c])
    ensures !IsSpace(c) ==> Inside(text + [c])
  {
    assert (text + [c])[..|text|] == text;
  }

  /** Characters that are no spaces go on with the word. */
  lemma {:induction false} ReadOn(text: string, z: string)
    requires Inside(text) && forall i :: 0 <= i < |z| ==> !IsSpace(z[i])
    ensures Inside(text + z) && Read(text + z) == Longer(Read(text), z)
  {
    hide Read, Inside, Open, EndsInWord;
    if z == "" {
      assert text + z == text;
      ReadNext(text, 'x');
      LongerTwice(Read(text), "", "");
    } else {
      var n, c := |z| - 1, z[|z| - 1];
      ReadOn(text, z[..n]);
      ReadNext(text + z[..n], c);
      assert (text + z[..n]) + [c] == text + z && z == z[..n] + [c];
      InsideNext(text + z[..n], c);
      InsideMeans(text + z[..n]);
      LongerTwice(Read(text), z[..n], [c]);
    }
  }

  lemma InsideMeans(text: string)
    ensures Inside(text) <==> Open(text) || EndsInWord(text)
  {}

  lemma LongerTwice(ws: seq<string>, a: string, b: string)
    requires ws != []
    ensures Longer(Longer(ws, a), b) == Longer(ws, a + b) && Longer(ws, "") == ws
  {
    var n := |ws| - 1;
    assert (ws[n] + a) + b == ws[n] + (a + b) && ws[n] + "" == ws[n];
    assert ws == ws[..n] + [ws[n]];
  }

  /** A word after a space is the quoted value's, if one is open, and else a word of its own. */
  lemma ReadWord(text: string, w: string)
    requires Inside(text) && IsWord(w)
    ensures Inside(text + (" " + w)) && Read(text) != []
    ensures Read(text + (" " + w)) == if Open(text) then Longer(Read(text), " " + w) else Read(text) + [w]
  {
    ReadNext(text, ' ');
    if Open(text) {
      ReadWithin(text, w);
    } else {
      ReadApart(text, w);
    }
    hide *;
  }

  lemma Spaced(text: string)
    ensures Open(text) ==> Open(text + [' ']) && Inside(text + [' ']) && Inside(text)
    ensures Open(text) ==> Read(text) != [] && Read(text + [' ']) == Longer(Read(text), " ")
    ensures !Open(text) ==> !Open(text + [' ']) && !EndsInWord(text + [' ']) && Read(text + [' ']) == Read(text)
  {
    ReadNext(text, ' ');
    SpacedIsOutside(text);
  }

  lemma ReadWithin(text: string, w: string)
    requires Open(text) && IsWord(w)
    ensures Read(text) != [] && Inside(text + (" " + w)) && Read(text + (" " + w)) == Longer(Read(text), " " + w)
  {
    NoSpaces(w);
    hide *;
    Spaced(text);
    SpaceThenWord(text, w);
    ReadOn(text + [' '], w);
    LongerTwice(Read(text), " ", w);
  }

  lemma SpaceThenWord(text: string, w: string)
    requires w != ""
    ensures text + (" " + w) == (text + [' ']) + w == ((text + [' ']) + [w[0]]) + w[1..]
  {
    assert w == [w[0]] + w[1..];
  }

  lemma NoSpaces(w: string)
    requires IsWord(w)
    ensures w != "" && forall i :: 0 <= i < |w| ==> !IsSpace(w[i])
  {}

  lemma ReadApart(text: string, w: string)
    requires !Open(text) && IsWord(w)
    ensures Inside(text + (" " + w)) && Read(text + (" " + w)) == Read(text) + [w]
  {
    NoSpaces(w);
    hide *;
    var spaced, c, rest := text + [' '], w[0], w[1..];
    Spaced(text);
    StartsAnew(spaced, c);
    ReadOn(spaced + [c], rest);
    SpaceThenWord(text, w);
    LastLonger(Read(text), c, w);
  }

  lemma StartsAnew(text: string, c: char)
    requires !Open(text) && !EndsInWord(text) && !IsSpace(c)
    ensures Inside(text + [c]) && Read(text + [c]) == Read(text) + [[c]]
  {
    ReadNext(text, c);
    InsideNext(text, c);
    hide Read, Open, Inside, EndsInWord;
  }

  lemma LastLonger(ws: seq<string>, c: char, w: string)
    requires w != "" && w[0] == c
    ensures Longer(ws + [[c]], w[1..]) == ws + [w]
  {
    assert (ws + [[c]])[..|ws|] == ws && [c] + w[1..] == w;
  }

  lemma SpacedIsOutside(text: string)
    ensures Open(text + [' ']) == Open(text) && !EndsInWord(text + [' '])
  {
    assert (text + [' '])[..|text|] == text;
  }

  // ----- words glued

  /** As long as a word leaves a quoted value open, the next goes on with it. */
  function Glue(ws: seq<string>): (r: seq<string>)
    ensures r == [] <==> ws == []
    decreases |ws|
  {
    if ws == [] then []
    else if |ws| > 1 && Open(ws[0]) then Glue([ws[0] + (" " + ws[1])] + ws[2..])
    else [ws[0]] + Glue(ws[1..])
  }

  /** The words leave a quoted value open. */
  predicate Odd(ws: seq<string>) {
    ws != [] && Open(ws[0]) != Odd(ws[1..])
  }

  lemma OpenGlued(a: string, b: string)
    ensures Open(a + (" " + b)) == (Open(a) != Open(b))
  {
    OpenJoined(a, " " + b);
    OpenJoined(" ", b);
    OpenHasQuote(" ");
  }

  /** Gluing the first two words of some. */
  lemma FirstGlued(ws: seq<string>)
    requires |ws| > 1
    ensures var glued := [ws[0] + (" " + ws[1])] + ws[2..];
            Odd(glued) == Odd(ws) && |glued| == |ws| - 1 && glued[1..] == ws[2..]
  {
    OpenGlued(ws[0], ws[1]);
    assert ws[1..][1..] == ws[2..];
    assert Odd(ws[1..]) == (Open(ws[1]) != Odd(ws[2..]));
    assert ([ws[0] + (" " + ws[1])] + ws[2..])[1..] == ws[2..];
  }

  lemma {:induction false} OddJoined(a: seq<string>, b: seq<string>)
    ensures Odd(a + b) == (Odd(a) != Odd(b))
  {
    if a == [] {
      assert a + b == b;
    } else {
      assert (a + b)[1..] == a[1..] + b;
      OddJoined(a[1..], b);
    }
  }

  /** Words that leave nothing open are glued apart from those after them. */
  lemma {:induction false} GlueJoined(a: seq<string>, b: seq<string>)
    requires !Odd(a)
    ensures Glue(a + b) == Glue(a) + Glue(b)
    decreases |a|
  {
    if a == [] {
      assert a + b == b;
    } else if Open(a[0]) {
      assert |a| > 1;
      var glued := [a[0] + (" " + a[1])] + a[2..];
      FirstGlued(a);
      GlueJoined(glued, b);
      assert [(a + b)[0] + (" " + (a + b)[1])] + (a + b)[2..] == glued + b;
    } else {
      assert (a + b)[1..] == a[1..] + b;
      GlueJoined(a[1..], b);
    }
  }

  lemma {:induction false} GlueNext(ws: seq<string>, w: string)
    requires ws != []
    ensures Glue(ws) != [] && Glue(ws + [w]) == if Odd(ws) then Longer(Glue(ws), " " + w) else Glue(ws) + [w]
    decreases |ws|
  {
    if !Odd(ws) {
      GlueJoined(ws, [w]);
      assert Glue([w]) == [w] + Glue([]);
    } else if |ws| == 1 {
      assert ws[1..] == [] && Odd(ws) == (Open(ws[0]) != Odd([]));
      GlueTwo(ws[0], w);
      assert ws == [ws[0]] && ws + [w] == [ws[0], w];
    } else if Open(ws[0]) {
      var glued := [ws[0] + (" " + ws[1])] + ws[2..];
      FirstGlued(ws);
      GlueNext(glued, w);
      assert [(ws + [w])[0] + (" " + (ws + [w])[1])] + (ws + [w])[2..] == glued + [w];
    } else {
      assert (ws + [w])[1..] == ws[1..] + [w];
      GlueNext(ws[1..], w);
      GluedFirst(ws[0], Glue(ws[1..]), " " + w);
    }
  }

  lemma GlueTwo(a: string, b: string)
    requires Open(a)
    ensures Glue([a, b]) == [a + (" " + b)] && Glue([a]) == [a]
  {
    assert [a + (" " + b)] + [a, b][2..] == [a + (" " + b)];
    assert Glue([a + (" " + b)]) == [a + (" " + b)] + Glue([]);
    assert Glue([a]) == [a] + Glue([]);
  }

  lemma GluedFirst(first: string, rest: seq<string>, more: string)
    requires rest != []
    ensures Longer([first] + rest, more) == [first] + Longer(rest, more)
  {
    assert ([first] + rest)[..|rest|] == [first] + rest[..|rest| - 1];
  }

  /** What PROJ reads of words with single spaces between. */
  lemma {:induction false} ReadJoined(ws: seq<string>)
    requires AreWords(ws)
    ensures Read(Joined(ws)) == Glue(ws) && Open(Joined(ws)) == Odd(ws)
    ensures ws != [] ==> Inside(Joined(ws))
  {
    if ws == [] {
      return;
    }
    var before, last := ws[..|ws| - 1], ws[|ws| - 1];
    assert ws == before + [last] && IsWord(last);
    ReadJoined(before);
    OddJoined(before, [last]);
    assert Odd([last]) == (Open(last) != Odd([]));
    if before == [] {
      OneRead(last);
      assert Joined(ws) == last && Glue(ws) == [last] + Glue([]);
      return;
    }
    hide Read, Open, Glue, Odd, Joined, Inside, IsWord;
    JoinedNext(before, last);
    ReadWord(Joined(before), last);
    GlueNext(before, last);
    OpenGlued(Joined(before), last);
  }

  lemma OneRead(w: string)
    requires IsWord(w)
    ensures Read(w) == [w] && Inside(w)
  {
    var c, rest := w[0], w[1..];
    assert Read([]) == [] && !Inside([]) && [] + [c] == [c];
    ReadNext([], c);
    InsideNext([], c);
    ReadOn([c], rest);
    assert [c] + rest == w && Longer([[c]], rest) == [w];
  }

  /** Splitting at spaces agrees with what PROJ reads just where no word but the last leaves a value open. */
  lemma {:induction false} ReadAlikeExactly(ws: seq<string>)
    requires AreWords(ws)
    ensures Read(Joined(ws)) == Words(Joined(ws)) <==> forall i :: 0 <= i < |ws| - 1 ==> !Open(ws[i])
  {
    ReadJoined(ws);
    WordsOfJoined(ws);
    GlueIsShorter(ws);
  }

  lemma {:induction false} GlueIsShorter(ws: seq<string>)
    ensures |Glue(ws)| <= |ws|
    ensures Glue(ws) == ws <==> forall i :: 0 <= i < |ws| - 1 ==> !Open(ws[i])
    decreases |ws|
  {
    if |ws| > 1 && Open(ws[0]) {
      GlueIsShorter([ws[0] + (" " + ws[1])] + ws[2..]);
    } else if ws != [] {
      var rest := ws[1..];
      GlueIsShorter(rest);
      assert [ws[0]] + rest == ws;
      assert Glue(ws)[1..] == Glue(rest);
      if forall i :: 0 <= i < |rest| - 1 ==> !Open(rest[i]) {
        assert forall i :: 0 < i < |ws| - 1 ==> ws[i] == rest[i - 1];
      } else {
        var i :| 0 <= i < |rest| - 1 && Open(rest[i]);
        assert ws[i + 1] == rest[i];
      }
    }
  }

  // ----- words outside quotes

  /** How often a word comes outside quoted values. */
  function Outside(ws: seq<string>, w: string, odd: bool): nat {
    if ws == [] then 0 else
      (if ws[0] == w && !odd then 1 else 0) + Outside(ws[1..], w, odd != Open(ws[0]))
  }

  /** That often it is one of PROJ's words. */
  lemma {:induction false} CountGlued(ws: seq<string>, w: string)
    requires '"' !in w
    ensures CountOf(Glue(ws), w) == Outside(ws, w, false)
    decreases |ws|
  {
    if |ws| > 1 && Open(ws[0]) {
      var glued := [ws[0] + (" " + ws[1])] + ws[2..];
      FirstGlued(ws);
      OpenGlued(ws[0], ws[1]);
      CountGlued(glued, w);
      NotGlued(ws[0], ws[1], w);
      assert ws[1..][1..] == ws[2..];
    } else if ws != [] {
      CountGlued(ws[1..], w);
      var rest := Glue(ws[1..]);
      assert ([ws[0]] + rest)[1..] == rest;
      if |ws| == 1 {
        assert ws[1..] == [];
      }
    }
  }

  lemma NotGlued(a: string, b: string, w: string)
    requires Open(a) && '"' !in w
    ensures a != w && a + (" " + b) != w
  {
    OpenHasQuote(w);
    if a + (" " + b) == w {
      assert w[..|a|] == a;
      forall c | c in a ensures c in w {}
      OpenHasQuote(a);
    }
  }

  lemma {:induction false} OutsideIsIn(ws: seq<string>, w: string, odd: bool)
    ensures Outside(ws, w, odd) > 0 ==> w in ws
    ensures Outside(ws, w, odd) <= CountOf(ws, w)
  {
    if ws != [] {
      OutsideIsIn(ws[1..], w, odd != Open(ws[0]));
    }
  }

  /** The first of a word is inside a quoted value. */
  predicate Quoted(ws: seq<string>, w: string, odd: bool) {
    ws != [] && if ws[0] == w then odd else Quoted(ws[1..], w, odd != Open(ws[0]))
  }

  /** Taking the first of a word out of those split at spaces takes it out of PROJ's, where it is one of them. */
  lemma {:induction false} RemovedGlued(ws: seq<string>, w: string)
    requires w in ws && '"' !in w && !Quoted(ws, w, false)
    ensures w in Glue(ws) && Glue(Removed(ws, w)) == Removed(Glue(ws), w)
    decreases |ws|
  {
    OpenHasQuote(w);
    assert ws == [ws[0]] + ws[1..];
    if ws[0] == w {
      assert Glue(ws) == [w] + Glue(ws[1..]);
      assert Removed(Glue(ws), w) == Glue(ws)[1..] == Glue(ws[1..]);
    } else if Open(ws[0]) {
      assert |ws| > 1 && ws[1..][0] == ws[1] != w && ws[1..][1..] == ws[2..];
      assert ws[1..] == [ws[1]] + ws[2..];
      var first := ws[0] + (" " + ws[1]);
      OpenGlued(ws[0], ws[1]);
      NotGlued(ws[0], ws[1], w);
      var glued := [first] + ws[2..];
      assert glued[1..] == ws[2..];
      assert w in glued by {
        assert w in ws[2..];
      }
      RemovedGlued(glued, w);
      var left := Removed(ws[2..], w);
      assert Removed(ws[1..], w) == [ws[1]] + left;
      assert Removed(ws, w) == [ws[0]] + ([ws[1]] + left);
      assert Removed(ws, w)[2..] == left && Removed(glued, w) == [first] + left;
    } else {
      RemovedGlued(ws[1..], w);
      assert Removed(ws, w)[1..] == Removed(ws[1..], w);
      assert ([ws[0]] + Glue(ws[1..]))[1..] == Glue(ws[1..]);
      assert Glue(ws)[0] == ws[0];
    }
  }

  /** A word taken out changes nothing else outside quoted values: itself, unless it was inside one. */
  lemma {:induction false} RemovedOutside(ws: seq<string>, w: string, other: string, odd: bool)
    requires w in ws && '"' !in w
    ensures Odd(Removed(ws, w)) == Odd(ws)
    ensures Outside(Removed(ws, w), other, odd)
            == Outside(ws, other, odd) - if other == w && !Quoted(ws, w, odd) then 1 else 0
  {
    OpenHasQuote(w);
    assert ws == [ws[0]] + ws[1..];
    if ws[0] != w {
      RemovedOutside(ws[1..], w, other, odd != Open(ws[0]));
      assert Removed(ws, w)[1..] == Removed(ws[1..], w);
    }
  }
}
