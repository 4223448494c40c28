module Operations {
  // Accepting the operation PROJ built (geodetic_engine/geodesy/operation.py, lines 922 to 976 and 1078 to 1178).
  //
  // A tree of operations is taken only if every datum change in it was asked for. PROJ fuses
  // operations into one step without an identifier, which is taken only if what it runs is what the
  // operations asked for run, in the order of its name.

  import opened Options
  import P = Pipelines

  /** Text PROJ gives for an operation: none, text whose quotes do not match, or its words. */
  datatype Text = Missing | Unbalanced | Words(words: seq<string>)

  datatype Kind = Conversion | Concatenated | Transformation | PointMotion | NoOperation

  /** A node of a PROJJSON tree: its identifier, its name, whether its method is one PROJ fused, what that
      method runs, and the nodes below it. */
  datatype Node = Node(kind: Kind, id: Option<(string, string)>, name: string, fused: bool, content: Text,
                       steps: seq<Node>)

  /** An operation asked for, by authority and code, by name, or both. */
  datatype Request = Request(key: Option<(string, string)>, name: Option<string>)

  /** What the database and PROJ's naming give: a name as compared, whether it says it is an inverse, the name
      a request goes by, and what the operation it asks for runs. */
  datatype Registry = Registry(base: string -> string, inverse: string -> bool, nameOf: Request -> Option<string>,
                               runs: (Request, string) -> Text)

  // ----- names

  const SEPARATOR := " + "

  /** str.split on the separator of fused names. */
  function Split(name: string): (parts: seq<string>)
    ensures parts != []
  {
    if |name| < 3 then [name]
    else if name[..3] == SEPARATOR then [""] + Split(name[3..])
    else
      var rest := Split(name[1..]);
      [[name[0]] + rest[0]] + rest[1..]
  }

  predicate NameMatches(g: Registry, name: string, expected: string) {
    || g.base(name) == g.base(expected)
    || (|Split(name)| > 1 && exists i :: 0 <= i < |Split(name)| && g.base(Split(name)[i]) == g.base(expected))
  }

  // ----- find_in

  predicate IsOperation(n: Node) { n.kind != NoOperation }

  /** operation_nodes: the operations of a tree, in document order. */
  function Nodes(n: Node): seq<Node> {
    (if IsOperation(n) then [n] else []) + NodesOf(n.steps, |n.steps|)
  }

  function NodesOf(steps: seq<Node>, k: nat): seq<Node>
    requires k <= |steps|
  {
    if k == 0 then [] else NodesOf(steps, k - 1) + Nodes(steps[k - 1])
  }

  predicate Matches(g: Registry, request: Request, n: Node) {
    var expected := if request.name.Some? then request.name else g.nameOf(request);
    || (request.key.Some? && n.id == request.key)
    || (expected.Some? && NameMatches(g, n.name, expected.value) && (request.name.Some? || (n.id.None? && n.fused)))
  }

  /** The last matching node is kept: one that wraps another repeats its identifier. */
  method FindIn(g: Registry, request: Request, definition: Node) returns (match_: Option<nat>)
    ensures match_ == LastMatch(g, request, Nodes(definition))
    ensures match_.Some? ==> match_.value < |Nodes(definition)| && IsFound(g, request, Nodes(definition)[match_.value])
  {
    FoundIsMatched(g, request, Nodes(definition));
    hide Matches, Nodes, IsFound;
    var nodes := Nodes(definition);
    match_ := None;
    for i := 0 to |nodes|
      invariant match_ == LastMatch(g, request, nodes[..i])
    {
      assert nodes[..i + 1][..i] == nodes[..i];
      if Matches(g, request, nodes[i]) {
        match_ := Some(i);
      }
    }
    assert nodes[..|nodes|] == nodes;
  }

  /** What a request may find: its own identifier, a name asked for, or, asked for by code alone, what PROJ fused
      and left without an identifier, by the code's registered name. */
  ghost predicate IsFound(g: Registry, request: Request, n: Node) {
    || (request.key.Some? && n.id == request.key)
    || (request.name.Some? && NameMatches(g, n.name, request.name.value))
    || (request.name.None? && n.id.None? && n.fused
        && exists name: string :: g.nameOf(request) == Some(name) && NameMatches(g, n.name, name))
  }

  lemma FoundIsMatched(g: Registry, request: Request, nodes: seq<Node>)
    ensures var last := LastMatch(g, request, nodes);
            last.Some? ==> last.value < |nodes| && IsFound(g, request, nodes[last.value])
  {
    LastMatchIsLast(g, request, nodes);
    hide LastMatch, NameMatches;
  }

  function LastMatch(g: Registry, request: Request, nodes: seq<Node>): Option<nat> {
    if nodes == [] then None
    else if Matches(g, request, nodes[|nodes| - 1]) then Some(|nodes| - 1)
    else LastMatch(g, request, nodes[..|nodes| - 1])
  }

  /** The request is for this very node: find_in gives it, and not one below it. */
  predicate IsFor(g: Registry, request: Request, n: Node) {
    IsOperation(n) && LastMatch(g, request, Nodes(n)) == Some(0)
  }

  /** The match kept is the last there is. */
  lemma {:induction false} LastMatchIsLast(g: Registry, request: Request, nodes: seq<Node>)
    ensures var last := LastMatch(g, request, nodes);
            if last.None? then forall i :: 0 <= i < |nodes| ==> !Matches(g, request, nodes[i])
            else last.value < |nodes| && Matches(g, request, nodes[last.value])
                 && forall i :: last.value < i < |nodes| ==> !Matches(g, request, nodes[i])
  {
    hide Matches;
    if nodes != [] {
      LastMatchIsLast(g, request, nodes[..|nodes| - 1]);
    }
  }

  /** That is: it matches the request, and no node below it does. */
  lemma IsForExactly(g: Registry, request: Request, n: Node)
    requires IsOperation(n)
    ensures var below := NodesOf(n.steps, |n.steps|);
            IsFor(g, request, n) <==>
            Matches(g, request, n) && forall i :: 0 <= i < |below| ==> !Matches(g, request, below[i])
  {
    var below := NodesOf(n.steps, |n.steps|);
    LastMatchIsLast(g, request, Nodes(n));
    var nodes, last := Nodes(n), LastMatch(g, request, Nodes(n));
    assert nodes == [n] + below && (IsFor(g, request, n) <==> last == Some(0));
    hide *;
    if last == Some(0) {
      forall i | 0 <= i < |below| ensures !Matches(g, request, below[i]) {
        assert nodes[i + 1] == below[i];
      }
    } else if last.Some? {
      assert Matches(g, request, nodes[last.value]);
      assert nodes[last.value] == below[last.value - 1];
    } else {
      assert nodes[0] == n;
    }
  }

  /** A request by code alone is for nodes with that very identifier, and for fused ones without any that go
      by the name the code is registered under: never for a node with another identifier. */
  lemma ForByCode(g: Registry, request: Request, n: Node)
    requires request.name.None? && IsFor(g, request, n)
    ensures (request.key.Some? && n.id == request.key)
            || (n.id.None? && n.fused && g.nameOf(request).Some? && NameMatches(g, n.name, g.nameOf(request).value))
  {
    LastMatchIsLast(g, request, Nodes(n));
    assert Nodes(n)[0] == n;
  }

  /** One by name is for nodes with the identifier it may also have, and for those that go by the name. */
  lemma ForByName(g: Registry, request: Request, n: Node)
    requires request.name.Some? && IsFor(g, request, n)
    ensures (request.key.Some? && n.id == request.key) || NameMatches(g, n.name, request.name.value)
  {
    LastMatchIsLast(g, request, Nodes(n));
    assert Nodes(n)[0] == n;
  }

  /** The other way round, it is for whatever it may find that has nothing below. */
  lemma ForWhatIsFound(g: Registry, request: Request, n: Node)
    requires IsOperation(n) && n.steps == [] && IsFound(g, request, n)
    ensures IsFor(g, request, n)
  {
    IsForExactly(g, request, n);
    hide NameMatches;
    assert Matches(g, request, n);
  }

  // ----- the parts of a fused name

  function PartsJoined(parts: seq<string>): string
    requires parts != []
  {
    if |parts| == 1 then parts[0] else parts[0] + (SEPARATOR + PartsJoined(parts[1..]))
  }

  predicate StartsWithSeparator(s: string) {
    |s| >= 3 && s[0] == ' ' && s[1] == '+' && s[2] == ' '
  }

  /** Joined again they are the name, and no separator is left within one. */
  lemma PartsAreWhole(name: string)
    ensures PartsJoined(Split(name)) == name
    ensures forall i, k :: 0 <= i < |Split(name)| && 0 <= k <= |Split(name)[i]| ==>
      !StartsWithSeparator(Split(name)[i][k..])
  {
    PartsJoin(name);
    PartsAreFree(name);
    forall i, k | 0 <= i < |Split(name)| && 0 <= k <= |Split(name)[i]|
      ensures !StartsWithSeparator(Split(name)[i][k..])
    {
      assert Free(Split(name)[i]);
    }
  }

  lemma {:induction false} PartsJoin(name: string)
    ensures PartsJoined(Split(name)) == name
  {
    var parts := Split(name);
    if |name| >= 3 && name[..3] == SEPARATOR {
      var rest := Split(name[3..]);
      PartsJoin(name[3..]);
      assert parts[1..] == rest && name == SEPARATOR + name[3..];
      assert "" + (SEPARATOR + PartsJoined(rest)) == name;
    } else if |name| >= 3 {
      PartsJoin(name[1..]);
      OneMore(name[0], Split(name[1..]));
      assert [name[0]] + name[1..] == name;
    }
  }

  ghost predicate Free(part: string) {
    forall k :: 0 <= k <= |part| ==> !StartsWithSeparator(part[k..])
  }

  lemma {:induction false} PartsAreFree(name: string)
    ensures forall i :: 0 <= i < |Split(name)| ==> Free(Split(name)[i])
  {
    ShortIsFree(name);
    hide Free;
    if |name| >= 3 && name[..3] == SEPARATOR {
      ShortIsFree("");
      PartsAreFree(name[3..]);
    } else if |name| >= 3 {
      PartsAreFree(name[1..]);
      FirstIsNoSeparator(name, Split(name[1..])[0]);
      LongerIsFree(name[0], Split(name[1..])[0]);
    }
  }

  lemma ShortIsFree(part: string)
    ensures |part| < 3 ==> Free(part)
  {}

  lemma LongerIsFree(c: char, part: string)
    requires Free(part) && !StartsWithSeparator([c] + part)
    ensures Free([c] + part)
  {
    var longer := [c] + part;
    forall k | 0 <= k <= |longer| ensures !StartsWithSeparator(longer[k..]) {
      if k > 0 {
        assert longer[k..] == part[k - 1..];
      } else {
        assert longer[0..] == longer;
      }
    }
  }

  /** No separator starts in a name, wherever one follows it. */
  ghost predicate Clear(name: string, after: string) {
    forall k :: 0 <= k < |name| ==> !StartsWithSeparator((name + after)[k..])
  }

  lemma ClearOnward(name: string, after: string)
    requires Clear(name, after) && name != ""
    ensures Clear(name[1..], after) && name + after == [name[0]] + (name[1..] + after)
    ensures |name + after| < 3 || (name + after)[..3] != SEPARATOR
  {
    var all := name + after;
    assert all[0..] == all && !StartsWithSeparator(all);
    assert |all| >= 3 ==> all[..3] == [all[0], all[1], all[2]];
    forall k | 0 <= k < |name[1..]| ensures !StartsWithSeparator((name[1..] + after)[k..]) {
      assert (name[1..] + after)[k..] == all[k + 1..];
    }
  }

  /** A name is split at its first separator. */
  lemma {:induction false} SplitAtFirst(first: string, rest: string)
    requires Clear(first, SEPARATOR + rest)
    ensures Split(first + (SEPARATOR + rest)) == [first] + Split(rest)
  {
    var all := first + (SEPARATOR + rest);
    if first == "" {
      assert all == SEPARATOR + rest && all[..3] == SEPARATOR && all[3..] == rest;
    } else {
      ClearOnward(first, SEPARATOR + rest);
      SplitAtFirst(first[1..], rest);
      assert all[1..] == first[1..] + (SEPARATOR + rest);
      assert [first[0]] + first[1..] == first;
    }
  }

  lemma {:induction false} NotSplit(name: string)
    requires Clear(name, "")
    ensures Split(name) == [name]
  {
    if |name| >= 3 {
      ClearOnward(name, "");
      assert name + "" == name && name[1..] + "" == name[1..];
      NotSplit(name[1..]);
      assert [name[0]] + name[1..] == name;
    }
  }

  /** A name without a separator is for the operation of the same base name; one with some is so as a whole, or
      where one of its parts is: the one before its first separator, or one of what comes after. */
  lemma NameMatchesExactly(g: Registry, first: string, rest: string, expected: string)
    ensures Clear(first, "") ==> (NameMatches(g, first, expected) <==> g.base(first) == g.base(expected))
    ensures Clear(first, SEPARATOR + rest) ==>
      (NameMatches(g, first + (SEPARATOR + rest), expected)
      <==> g.base(first + (SEPARATOR + rest)) == g.base(expected) || g.base(first) == g.base(expected)
           || exists i :: 0 <= i < |Split(rest)| && g.base(Split(rest)[i]) == g.base(expected))
  {
    hide Split, Clear;
    if Clear(first, "") {
      NotSplit(first);
    }
    if Clear(first, SEPARATOR + rest) {
      SplitAtFirst(first, rest);
      PartsMatch(g, first + (SEPARATOR + rest), first, Split(rest), expected);
    }
  }

  lemma PartsMatch(g: Registry, name: string, first: string, others: seq<string>, expected: string)
    requires Split(name) == [first] + others && others != []
    ensures NameMatches(g, name, expected)
      <==> g.base(name) == g.base(expected) || g.base(first) == g.base(expected)
           || exists i :: 0 <= i < |others| && g.base(others[i]) == g.base(expected)
  {
    hide Split;
    var parts := [first] + others;
    assert parts[0] == first && forall i :: 0 <= i < |others| ==> parts[i + 1] == others[i];
    assert forall i :: 0 < i < |parts| ==> parts[i] == others[i - 1];
  }

  lemma OneMore(c: char, rest: seq<string>)
    requires rest != []
    ensures PartsJoined([[c] + rest[0]] + rest[1..]) == [c] + PartsJoined(rest)
  {
    var parts := [[c] + rest[0]] + rest[1..];
    assert parts[1..] == rest[1..];
    if |rest| > 1 {
      assert ([c] + rest[0]) + (SEPARATOR + PartsJoined(rest[1..])) ==
          [c] + (rest[0] + (SEPARATOR + PartsJoined(rest[1..])));
    }
  }

  /** The first part of a name is its start. */
  lemma FirstIsNoSeparator(name: string, first: string)
    requires |name| >= 3 && name[..3] != SEPARATOR && first == Split(name[1..])[0]
    ensures !StartsWithSeparator([name[0]] + first)
  {
    StartsPart(name[1..]);
    assert name[..3] == [name[0], name[1], name[2]];
    assert |first| >= 2 ==> first[0] == name[1] && first[1] == name[2];
  }

  lemma {:induction false} StartsPart(name: string)
    ensures Split(name)[0] <= name
  {
    if |name| >= 3 && name[..3] != SEPARATOR {
      StartsPart(name[1..]);
      assert name == [name[0]] + name[1..];
    }
  }

  // ----- what a fused step runs

  const AXISSWAP := "proj=axisswap"
  const SWAPPED := "order=2,1"
  const UNITCONVERT := "proj=unitconvert"

  /** The steps with a token in them, less those that do nothing. */
  function Kept(groups: seq<seq<string>>): seq<seq<string>> {
    if groups == [] then [] else
      var last := groups[|groups| - 1];
      Kept(groups[..|groups| - 1]) + if last == [] || P.NOOP in last then [] else [last]
  }

  function Stripped(words: seq<string>): (tokens: seq<string>)
    ensures |tokens| == |words|
  {
    seq(|words|, i requires 0 <= i < |words| => P.Stripped(words[i]))
  }

  /** _executable_steps: each step's tokens, whose order does not matter. */
  function ExecutableSteps(text: Text): Option<seq<seq<string>>> {
    if !text.Words? || text.words == [] then None else
      var tokens := Stripped(text.words);
      if tokens[0] != P.PIPELINE then Some(if P.NOOP in tokens then [] else [tokens])
      else
        var groups := P.Grouped(tokens[1..]);
        if groups.None? then None else Some(Kept(groups.value))
  }

  method StepsOf(text: Text) returns (r: Option<seq<seq<string>>>)
    ensures r == ExecutableSteps(text)
  {
    if !text.Words? || text.words == [] {
      return None;
    }
    var tokens := Stripped(text.words);
    if tokens[0] != P.PIPELINE {
      return Some(if P.NOOP in tokens then [] else [tokens]);
    }
    var groups := P.Group(tokens[1..]);
    if groups.None? {
      return None;
    }
    var steps: seq<seq<string>> := [];
    for i := 0 to |groups.value|
      invariant steps == Kept(groups.value[..i])
    {
      assert groups.value[..i + 1][..i] == groups.value[..i];
      if groups.value[i] != [] && P.NOOP !in groups.value[i] {
        steps := steps + [groups.value[i]];
      }
    }
    assert groups.value[..|groups.value|] == groups.value;
    r := Some(steps);
  }

  /** str.replace, of text with an equals sign by text with one. */
  function Replaced(s: string, from: string, to: string): (r: string)
    requires '=' in from && '=' in to
    ensures if '=' in s then '=' in r else r == s
  {
    if |s| < |from| then s
    else if s[..|from|] == from then to + Replaced(s[|from|..], from, to)
    else
      var rest := Replaced(s[1..], from, to);
      assert s == [s[0]] + s[1..];
      [s[0]] + rest
  }

  /** A unit conversion's token with in and out exchanged. */
  function Exchanged(token: string): (r: string)
    ensures if '=' in token then '=' in r else r == token
  {
    var marked := Replaced(token, IN, TEMPORARY);
    Replaced(Replaced(marked, OUT, IN), TEMPORARY, OUT)
  }

  const IN := "_in="
  const OUT := "_out="
  const TEMPORARY := "_temporary="

  function AllExchanged(step: seq<string>): (r: seq<string>)
    ensures |r| == |step|
  {
    seq(|step|, i requires 0 <= i < |step| => Exchanged(step[i]))
  }

  /** _inverse_tokens. */
  function InverseTokens(step: seq<string>): seq<string> {
    if AXISSWAP in step && SWAPPED in step then P.Without(step, P.INVERSE)
    else if UNITCONVERT in step then AllExchanged(step)
    else if P.INVERSE in step then P.Without(step, P.INVERSE)
    else step + [P.INVERSE]
  }

  /** The steps of an operation in the direction a part of the name says. */
  function Directed(steps: seq<seq<string>>, inverse: bool): (r: seq<seq<string>>)
    ensures |r| == |steps|
  {
    if inverse then seq(|steps|, i requires 0 <= i < |steps| => InverseTokens(steps[|steps| - 1 - i])) else steps
  }

  /** Steps with the same tokens, in whatever order: sorted tuples that are equal. */
  predicate SameSteps(a: seq<seq<string>>, b: seq<seq<string>>) {
    |a| == |b| && forall i :: 0 <= i < |a| ==> multiset(a[i]) == multiset(b[i])
  }

  // ----- fully_requested

  /** The request goes by the name of the part. */
  predicate Named(g: Registry, request: Request, part: string) {
    var name := if request.name.Some? && request.name.value != "" then request.name else g.nameOf(request);
    MatchesAny(g, part, Split(if name.Some? then name.value else ""))
  }

  predicate MatchesAny(g: Registry, part: string, names: seq<string>) {
    exists i :: 0 <= i < |names| && NameMatches(g, part, names[i])
  }

  /** The first of the requests for this node that goes by the name of the part. */
  function FirstFor(g: Registry, requests: seq<Request>, n: Node, part: string): (r: Option<Request>)
    ensures r.Some? ==> r.value in requests && IsFor(g, r.value, n) && Named(g, r.value, part)
    ensures r.None? ==> forall i :: 0 <= i < |requests| ==> !(IsFor(g, requests[i], n) && Named(g, requests[i], part))
  {
    if requests == [] then None
    else if IsFor(g, requests[0], n) && Named(g, requests[0], part) then Some(requests[0])
    else FirstFor(g, requests[1..], n, part)
  }

  /** What the operation asked for under the part's name runs, in the part's direction. */
  function PartSteps(g: Registry, requests: seq<Request>, n: Node, part: string): Option<seq<seq<string>>> {
    var matched := FirstFor(g, requests, n, part);
    if matched.None? then None else
      var steps := ExecutableSteps(g.runs(matched.value, part));
      if steps.None? then None else Some(Directed(steps.value, g.inverse(part)))
  }

  function Expected(g: Registry, requests: seq<Request>, n: Node, parts: seq<string>): Option<seq<seq<string>>> {
    if parts == [] then Some([]) else
      var before, last := Expected(g, requests, n, parts[..|parts| - 1]), PartSteps(g, requests, n, parts[|parts| - 1]);
      if before.None? || last.None? then None else Some(before.value + last.value)
  }

  /** A fused step runs what the operations its name joins run. */
  predicate FusedAsRequested(g: Registry, requests: seq<Request>, n: Node) {
    var expected, actual := Expected(g, requests, n, Split(n.name)), ExecutableSteps(n.content);
    expected.Some? && actual.Some? && SameSteps(actual.value, expected.value)
  }

  /** Some request is for this very node. */
  predicate Requested(g: Registry, requests: seq<Request>, n: Node) {
    exists i :: 0 <= i < |requests| && IsFor(g, requests[i], n)
  }

  predicate FullyRequested(g: Registry, n: Node, requests: seq<Request>) {
    match n.kind
    case Conversion => true
    case Concatenated => Requested(g, requests, n) || forall i :: 0 <= i < |n.steps| ==>
        FullyRequested(g, n.steps[i], requests)
    case NoOperation => false
    case _ => if n.fused then FusedAsRequested(g, requests, n) else Requested(g, requests, n)
  }

  method ExpectedSteps(g: Registry, requests: seq<Request>, n: Node) returns (r: Option<seq<seq<string>>>)
    ensures r == Expected(g, requests, n, Split(n.name))
  {
    var parts := Split(n.name);
    var expected: seq<seq<string>> := [];
    hide PartSteps;
    for k := 0 to |parts|
      invariant Expected(g, requests, n, parts[..k]) == Some(expected)
    {
      assert parts[..k + 1][..k] == parts[..k];
      var steps := StepsOfPart(g, requests, n, parts[k]);
      if steps.None? {
        NotExpected(g, requests, n, parts, k + 1);
        return None;
      }
      expected := expected + steps.value;
    }
    assert parts[..|parts|] == parts;
    r := Some(expected);
  }

  method StepsOfPart(g: Registry, requests: seq<Request>, n: Node, part: string) returns (r: Option<seq<seq<string>>>)
    ensures r == PartSteps(g, requests, n, part)
  {
    var matched := FirstFor(g, requests, n, part);
    if matched.None? {
      return None;
    }
    var steps := StepsOf(g.runs(matched.value, part));
    if steps.None? {
      return None;
    }
    r := Some(Directed(steps.value, g.inverse(part)));
  }

  lemma {:induction false} NotExpected(g: Registry, requests: seq<Request>, n: Node, parts: seq<string>, k: nat)
    requires k <= |parts| && Expected(g, requests, n, parts[..k]).None?
    ensures Expected(g, requests, n, parts).None?
    decreases |parts| - k
  {
    if k < |parts| {
      assert parts[..k + 1][..k] == parts[..k];
      NotExpected(g, requests, n, parts, k + 1);
    } else {
      assert parts[..k] == parts;
    }
  }

  // ----- nothing unasked for

  /** The node down some steps. */
  function Down(n: Node, path: seq<nat>): Option<Node>
    decreases |path|
  {
    if path == [] then Some(n)
    else if path[0] >= |n.steps| then None
    else Down(n.steps[path[0]], path[1..])
  }

  /** Every node above the path's end is a concatenated operation that was not itself asked for. */
  predicate Unvouched(g: Registry, n: Node, requests: seq<Request>, path: seq<nat>)
    decreases |path|
  {
    if path == [] then true
    else n.kind == Concatenated && !Requested(g, requests, n) && path[0] < |n.steps| &&
         Unvouched(g, n.steps[path[0]], requests, path[1..])
  }

  /** What a node not below one asked for must be. */
  predicate Allowed(g: Registry, n: Node, requests: seq<Request>) {
    match n.kind
    case Conversion => true
    case Concatenated => true
    case NoOperation => false
    case _ => if n.fused then FusedAsRequested(g, requests, n) else Requested(g, requests, n)
  }

  /** A tree is accepted just when every node not below a concatenated operation asked for is allowed: a
      conversion, an operation asked for, or a fused one that runs what was asked for. */
  lemma {:induction false} AcceptedExactly(g: Registry, n: Node, requests: seq<Request>)
    ensures FullyRequested(g, n, requests) <==>
            forall path: seq<nat> :: Unvouched(g, n, requests, path) ==>
                Down(n, path).Some? && Allowed(g, Down(n, path).value, requests)
  {
    if FullyRequested(g, n, requests) {
      forall path: seq<nat> | Unvouched(g, n, requests, path) ensures Down(n, path).Some? &&
          Allowed(g, Down(n, path).value, requests) {
        AllowedDown(g, n, requests, path);
      }
    } else {
      var path := SomeNotAllowed(g, n, requests);
    }
  }

  lemma {:induction false} AllowedDown(g: Registry, n: Node, requests: seq<Request>, path: seq<nat>)
    requires FullyRequested(g, n, requests) && Unvouched(g, n, requests, path)
    ensures Down(n, path).Some? && Allowed(g, Down(n, path).value, requests)
    decreases |path|
  {
    if path != [] {
      AllowedDown(g, n.steps[path[0]], requests, path[1..]);
    }
  }

  lemma {:induction false} SomeNotAllowed(g: Registry, n: Node, requests: seq<Request>) returns (path: seq<nat>)
    requires !FullyRequested(g, n, requests)
    ensures Unvouched(g, n, requests, path) && Down(n, path).Some? && !Allowed(g, Down(n, path).value, requests)
    decreases n
  {
    if n.kind == Concatenated {
      var i: nat :| i < |n.steps| && !FullyRequested(g, n.steps[i], requests);
      var rest := SomeNotAllowed(g, n.steps[i], requests);
      path := [i] + rest;
      assert path[1..] == rest;
    } else {
      path := [];
    }
  }

  /** Every datum change in an accepted tree was asked for: itself, as part of a concatenated operation above it
      that was, or as what a fused step runs. */
  lemma EveryDatumChangeWasRequested(g: Registry, n: Node, requests: seq<Request>, path: seq<nat>)
    requires FullyRequested(g, n, requests) && Down(n, path).Some?
    requires Down(n, path).value.kind == Transformation || Down(n, path).value.kind == PointMotion
    requires OnlyConcatenatedHaveSteps(n, path)
    ensures var node := Down(n, path).value;
            || (if node.fused then FusedAsRequested(g, requests, node) else Requested(g, requests, node))
            || exists k :: 0 <= k < |path| && Down(n, path[..k]).Some? && Down(n, path[..k]).value.kind ==
                           Concatenated && Requested(g, requests, Down(n, path[..k]).value)
    decreases |path|
  {
    if path != [] && !Requested(g, requests, n) {
      EveryDatumChangeWasRequested(g, n.steps[path[0]], requests, path[1..]);
      if k :| 0 <= k < |path[1..]| && Down(n.steps[path[0]], path[1..][..k]).Some?
              && Down(n.steps[path[0]], path[1..][..k]).value.kind == Concatenated
              && Requested(g, requests, Down(n.steps[path[0]], path[1..][..k]).value) {
        assert path[..k + 1][1..] == path[1..][..k];
        assert Down(n, path[..k + 1]) == Down(n.steps[path[0]], path[1..][..k]);
      }
    } else if path != [] {
      assert Down(n, path[..0]) == Some(n);
    }
  }

  /** An operation with an identifier that PROJ did not fuse is accepted only under that identifier, or by name. */
  lemma AcceptedWasAskedFor(g: Registry, n: Node, requests: seq<Request>, path: seq<nat>) returns (request: Request)
    requires FullyRequested(g, n, requests) && Unvouched(g, n, requests, path)
    requires Down(n, path).Some?
    requires var node := Down(n, path).value;
             (node.kind == Transformation || node.kind == PointMotion) && !node.fused && node.id.Some?
    ensures request in requests
    ensures var node := Down(n, path).value;
            request.key == node.id || (request.name.Some? && NameMatches(g, node.name, request.name.value))
  {
    AllowedDown(g, n, requests, path);
    var node := Down(n, path).value;
    var i :| 0 <= i < |requests| && IsFor(g, requests[i], node);
    request := requests[i];
    if request.name.Some? {
      ForByName(g, request, node);
    } else {
      ForByCode(g, request, node);
    }
  }

  /** Along the path, as in any PROJJSON tree, only concatenated operations have steps. */
  predicate OnlyConcatenatedHaveSteps(n: Node, path: seq<nat>)
    decreases |path|
  {
    path == [] || (n.kind == Concatenated && path[0] < |n.steps| &&
        OnlyConcatenatedHaveSteps(n.steps[path[0]], path[1..]))
  }

  predicate OnlyConversions(n: Node) {
    n.kind == Conversion || (n.kind == Concatenated && forall i :: 0 <= i < |n.steps| ==> OnlyConversions(n.steps[i]))
  }

  /** With nothing asked for, just the trees of conversions are accepted. */
  lemma {:induction false} UnrequestedExactly(g: Registry, n: Node)
    ensures FullyRequested(g, n, []) <==> OnlyConversions(n)
    decreases n
  {
    if n.kind == Concatenated {
      forall i | 0 <= i < |n.steps| ensures FullyRequested(g, n.steps[i], []) <==> OnlyConversions(n.steps[i]) {
        UnrequestedExactly(g, n.steps[i]);
      }
    } else if n.kind != Conversion && n.kind != NoOperation {
      var parts := Split(n.name);
      assert PartSteps(g, [], n, parts[|parts| - 1]).None?;
    }
  }

  // ----- what the steps mean

  /** What PROJ does with a step's tokens, in any order, forwards and backwards. */
  datatype World<!X> = World(forward: (multiset<string>, X) -> Option<X>, backward: (multiset<string>, X) -> Option<X>)

  function Core(step: multiset<string>): multiset<string> {
    step[P.INVERSE := 0]
  }

  /** What a step's tokens do on their own: an inv flag turns them over. */
  function Done<X>(w: World<X>, step: multiset<string>, back: bool, x: X): Option<X> {
    if (P.INVERSE in step) != back then w.backward(Core(step), x) else w.forward(Core(step), x)
  }

  predicate Omitted(step: multiset<string>, back: bool) {
    (if back then P.OMIT_BACKWARD else P.OMIT_FORWARD) in step
  }

  /** What they do as a step: nothing, where the pipeline is run in a direction it is omitted in. */
  function Meaning<X>(w: World<X>, step: multiset<string>, back: bool, x: X): Option<X> {
    if Omitted(step, back) then Some(x) else Done(w, step, back, x)
  }

  /** Swapping two axes undoes itself; exchanging a unit conversion's ends undoes it. */
  ghost predicate Laws<X(!new)>(w: World<X>) {
    && (forall step: seq<string>, x: X :: AXISSWAP in step && SWAPPED in step && P.INVERSE !in step ==>
          w.forward(multiset(step), x) == w.backward(multiset(step), x))
    && (forall step: seq<string>, x: X :: UNITCONVERT in step && P.INVERSE !in step ==>
          w.forward(multiset(AllExchanged(step)), x) == w.backward(multiset(step), x)
          && w.backward(multiset(AllExchanged(step)), x) == w.forward(multiset(step), x))
  }

  lemma {:induction false} WithoutIsCore(step: seq<string>)
    ensures multiset(P.Without(step, P.INVERSE)) == Core(multiset(step))
    ensures P.INVERSE !in P.Without(step, P.INVERSE)
  {
    if step == [] {
      return;
    }
    hide *;
    var before, last := step[..|step| - 1], step[|step| - 1];
    assert step == before + [last];
    WithoutIsCore(before);
    WithoutNext(before, last);
    CoreNext(multiset(before), last);
    assert multiset(step) == multiset(before) + multiset{last};
  }

  lemma CoreNext(step: multiset<string>, last: string)
    ensures Core(step + multiset{last}) == Core(step) + if last == P.INVERSE then multiset{} else multiset{last}
  {}

  lemma {:induction false} WithoutKeeps(step: seq<string>, token: string)
    requires token != P.INVERSE && token in step
    ensures token in P.Without(step, P.INVERSE)
  {
    if token != step[|step| - 1] {
      assert step == step[..|step| - 1] + [step[|step| - 1]];
      WithoutKeeps(step[..|step| - 1], token);
    }
  }

  lemma {:induction false} WithoutExchanged(step: seq<string>)
    ensures P.Without(AllExchanged(step), P.INVERSE) == AllExchanged(P.Without(step, P.INVERSE))
    ensures P.INVERSE in AllExchanged(step) <==> P.INVERSE in step
  {
    if step == [] {
      return;
    }
    hide *;
    var before, last := step[..|step| - 1], step[|step| - 1];
    assert step == before + [last];
    WithoutExchanged(before);
    ExchangedNext(before, last);
    WithoutNext(before, last);
    WithoutNext(AllExchanged(before), Exchanged(last));
    ExchangedNext(P.Without(before, P.INVERSE), last);
    assert P.Without(before, P.INVERSE) + [] == P.Without(before, P.INVERSE);
    assert AllExchanged(P.Without(before, P.INVERSE)) + [] == AllExchanged(P.Without(before, P.INVERSE));
  }

  lemma ExchangedNext(step: seq<string>, last: string)
    ensures AllExchanged(step + [last]) == AllExchanged(step) + [Exchanged(last)]
  {}

  lemma WithoutNext(step: seq<string>, last: string)
    ensures P.Without(step + [last], P.INVERSE) == P.Without(step, P.INVERSE) + if last == P.INVERSE then [] else [last]
  {
    assert (step + [last])[..|step|] == step;
  }

  /** On its own, a step inverted does backwards what it does forwards, and forwards what it does backwards. */
  lemma InverseTokensDo<X(!new)>(w: World<X>, step: seq<string>, back: bool, x: X)
    requires Laws(w)
    ensures Done(w, multiset(InverseTokens(step)), back, x) == Done(w, multiset(step), !back, x)
  {
    hide Laws, AllExchanged, Done, Core;
    if AXISSWAP in step && SWAPPED in step {
      AxesTurnOver(w, step, back, x);
    } else if UNITCONVERT in step {
      UnitsTurnOver(w, step, back, x);
    } else {
      FlagTurnsOver(w, step, back, x);
    }
  }

  /** A step is inverted as what it does is: omitted in both directions, or in neither. */
  predicate TurnsOver(step: seq<string>) {
    Omitted(multiset(step), false) == Omitted(multiset(step), true)
  }

  /** As a step, it does so just where it is omitted in both directions or in neither, or leaves the
      position where it is anyway. */
  lemma InverseTokensTurnOver<X(!new)>(w: World<X>, step: seq<string>, back: bool, x: X)
    requires Laws(w)
    ensures Meaning(w, multiset(InverseTokens(step)), back, x) == Meaning(w, multiset(step), !back, x)
            <==> TurnsOver(step) || Done(w, multiset(step), !back, x) == Some(x)
  {
    hide *;
    InverseTokensDo(w, step, back, x);
    InverseIsOmittedAlike(step, back);
    MeaningExactly(w, multiset(InverseTokens(step)), multiset(step), back, x);
    TurnsOverEitherWay(step, back);
  }

  lemma MeaningExactly<X>(w: World<X>, inverse: multiset<string>, step: multiset<string>, back: bool, x: X)
    requires Done(w, inverse, back, x) == Done(w, step, !back, x) && Omitted(inverse, back) == Omitted(step, back)
    ensures Meaning(w, inverse, back, x) == Meaning(w, step, !back, x)
            <==> Omitted(step, back) == Omitted(step, !back) || Done(w, step, !back, x) == Some(x)
  {
    hide Done, Omitted;
  }

  lemma TurnsOverEitherWay(step: seq<string>, back: bool)
    ensures TurnsOver(step) <==> Omitted(multiset(step), back) == Omitted(multiset(step), !back)
  {
    hide Omitted;
  }

  /** In every world that keeps the laws, at every position, it does so just where it turns over. */
  lemma InverseTokensTurnOverExactly(step: seq<string>, back: bool)
    ensures (forall w: World<int>, x: int :: Laws(w) ==>
               Meaning(w, multiset(InverseTokens(step)), back, x) == Meaning(w, multiset(step), !back, x))
            <==> TurnsOver(step)
  {
    hide Meaning, TurnsOver, Laws, InverseTokens;
    if TurnsOver(step) {
      forall w: World<int>, x: int | Laws(w)
        ensures Meaning(w, multiset(InverseTokens(step)), back, x) == Meaning(w, multiset(step), !back, x)
      {
        InverseTokensTurnOver(w, step, back, x);
      }
    } else {
      CountingIsLawful();
      InverseTokensTurnOver(Counting(), step, back, 0);
    }
  }

  /** A lawful world where every position moves, the same way forwards and backwards. */
  function Counting(): World<int> {
    World((step, x) => Some(x + 1), (step, x) => Some(x + 1))
  }

  lemma CountingIsLawful()
    ensures Laws(Counting())
  {}

  lemma InverseIsOmittedAlike(step: seq<string>, back: bool)
    ensures Omitted(multiset(InverseTokens(step)), back) == Omitted(multiset(step), back)
  {
    var omit := if back then P.OMIT_BACKWARD else P.OMIT_FORWARD;
    assert '=' !in omit;
    ExchangedKeeps(step, omit);
    WithoutIsCore(step);
    hide AllExchanged;
    assert Core(multiset(step))[omit] == multiset(step)[omit];
    assert omit in step + [P.INVERSE] <==> omit in step;
  }

  lemma ExchangedKeeps(step: seq<string>, token: string)
    requires '=' !in token
    ensures token in AllExchanged(step) <==> token in step
  {
    forall i | 0 <= i < |step| ensures AllExchanged(step)[i] == token <==> step[i] == token {}
  }

  lemma AxesTurnOver<X(!new)>(w: World<X>, step: seq<string>, back: bool, x: X)
    requires Laws(w) && AXISSWAP in step && SWAPPED in step
    ensures Done(w, multiset(P.Without(step, P.INVERSE)), back, x) == Done(w, multiset(step), !back, x)
  {
    var core := P.Without(step, P.INVERSE);
    WithoutIsCore(step);
    WithoutKeeps(step, AXISSWAP);
    WithoutKeeps(step, SWAPPED);
    assert AXISSWAP in core && SWAPPED in core;
    assert w.forward(multiset(core), x) == w.backward(multiset(core), x);
    hide Laws;
    assert Core(multiset(core)) == multiset(core);
  }

  lemma UnitsTurnOver<X(!new)>(w: World<X>, step: seq<string>, back: bool, x: X)
    requires Laws(w) && UNITCONVERT in step
    ensures Done(w, multiset(AllExchanged(step)), back, x) == Done(w, multiset(step), !back, x)
  {
    var core := P.Without(step, P.INVERSE);
    WithoutIsCore(step);
    WithoutExchanged(step);
    WithoutIsCore(AllExchanged(step));
    WithoutKeeps(step, UNITCONVERT);
    assert UNITCONVERT in core;
    assert w.forward(multiset(AllExchanged(core)), x) == w.backward(multiset(core), x);
    assert w.backward(multiset(AllExchanged(core)), x) == w.forward(multiset(core), x);
    hide Laws, AllExchanged;
  }

  lemma FlagTurnsOver<X>(w: World<X>, step: seq<string>, back: bool, x: X)
    ensures var turned := if P.INVERSE in step then P.Without(step, P.INVERSE) else step + [P.INVERSE];
            Done(w, multiset(turned), back, x) == Done(w, multiset(step), !back, x)
  {
    if P.INVERSE in step {
      WithoutIsCore(step);
      assert Core(multiset(P.Without(step, P.INVERSE))) == multiset(P.Without(step, P.INVERSE));
    } else {
      assert Core(multiset(step + [P.INVERSE])) == multiset(step) == Core(multiset(step));
      assert P.INVERSE in multiset(step + [P.INVERSE]);
    }
  }

  function Forward<X>(w: World<X>, steps: seq<seq<string>>, x: X): Option<X> {
    if steps == [] then Some(x) else
      var y := Forward(w, steps[..|steps| - 1], x);
      if y.None? then None else Meaning(w, multiset(steps[|steps| - 1]), false, y.value)
  }

  function Backward<X>(w: World<X>, steps: seq<seq<string>>, x: X): Option<X> {
    if steps == [] then Some(x) else
      var y := Meaning(w, multiset(steps[|steps| - 1]), true, x);
      if y.None? then None else Backward(w, steps[..|steps| - 1], y.value)
  }

  lemma {:induction false} ForwardJoined<X>(w: World<X>, a: seq<seq<string>>, b: seq<seq<string>>, x: X)
    ensures Forward(w, a + b, x) == var y := Forward(w, a, x); if y.None? then None else Forward(w, b, y.value)
  {
    if b == [] {
      assert a + b == a;
    } else {
      ForwardJoined(w, a, b[..|b| - 1], x);
      assert (a + b)[..|a + b| - 1] == a + b[..|b| - 1];
    }
  }

  ghost predicate AllTurnOver(steps: seq<seq<string>>) {
    forall i :: 0 <= i < |steps| ==> TurnsOver(steps[i])
  }

  /** An operation's steps inverted, in reverse, run forwards as they run backwards. */
  lemma {:induction false} DirectedRuns<X(!new)>(w: World<X>, steps: seq<seq<string>>, inverse: bool, x: X)
    requires Laws(w) && (inverse ==> AllTurnOver(steps))
    ensures Forward(w, Directed(steps, inverse), x) == if inverse then Backward(w, steps, x) else Forward(w, steps, x)
  {
    if inverse && steps != [] {
      var before, last := steps[..|steps| - 1], steps[|steps| - 1];
      var first := InverseTokens(last);
      assert Directed(steps, true) == [first] + Directed(before, true);
      ForwardJoined(w, [first], Directed(before, true), x);
      InverseTokensTurnOver(w, last, false, x);
      OneStep(w, first, x);
      hide Meaning, InverseTokens, Laws, TurnsOver;
      var y := Meaning(w, multiset(last), true, x);
      if y.Some? {
        DirectedRuns(w, before, true, y.value);
      }
    }
  }

  lemma OneStep<X>(w: World<X>, step: seq<string>, x: X)
    ensures Forward(w, [step], x) == Meaning(w, multiset(step), false, x)
  {
    assert [step][..0] == [];
    assert Forward(w, [step][..0], x) == Some(x);
  }

  lemma {:induction false} SameStepsRunAlike<X>(w: World<X>, a: seq<seq<string>>, b: seq<seq<string>>, x: X)
    requires SameSteps(a, b)
    ensures Forward(w, a, x) == Forward(w, b, x)
  {
    if a != [] {
      SameStepsRunAlike(w, a[..|a| - 1], b[..|b| - 1], x);
    }
  }

  /** The text is an operation on its own: no pipeline, so nothing in it is omitted. */
  predicate IsBare(text: Text) {
    text.Words? && text.words != [] && Stripped(text.words)[0] != P.PIPELINE
  }

  /** The text run in one direction, steps that do nothing left out. */
  function RunText<X>(w: World<X>, text: Text, back: bool, x: X): Option<X>
    requires ExecutableSteps(text).Some?
  {
    var steps := ExecutableSteps(text).value;
    if IsBare(text) then (if steps == [] then Some(x) else Done(w, multiset(steps[0]), back, x))
    else if back then Backward(w, steps, x)
    else Forward(w, steps, x)
  }

  /** Where it is no pipeline, nothing would be omitted in one either. */
  ghost predicate NothingOmitted(text: Text) {
    IsBare(text) ==> forall back: bool :: !Omitted(multiset(Stripped(text.words)), back)
  }

  lemma RunsAsSteps<X>(w: World<X>, text: Text, back: bool, x: X)
    requires ExecutableSteps(text).Some? && NothingOmitted(text)
    ensures RunText(w, text, back, x)
            == var steps := ExecutableSteps(text).value; if back then Backward(w, steps, x) else Forward(w, steps, x)
  {
    var steps := ExecutableSteps(text).value;
    if IsBare(text) && steps != [] {
      assert steps == [Stripped(text.words)];
      OneStep(w, steps[0], x);
      OneStepBack(w, steps[0], x);
    }
  }

  lemma OneStepBack<X>(w: World<X>, step: seq<string>, x: X)
    ensures Backward(w, [step], x) == Meaning(w, multiset(step), true, x)
  {
    assert [step][..0] == [];
  }

  /** The operations asked for under each part of a name, run in turn, those the name calls inverse backwards. */
  function RunParts<X>(w: World<X>, g: Registry, requests: seq<Request>, n: Node, parts: seq<string>, x: X): Option<X> {
    if parts == [] then Some(x) else
      var y, part := RunParts(w, g, requests, n, parts[..|parts| - 1], x), parts[|parts| - 1];
      var matched := FirstFor(g, requests, n, part);
      if y.None? || matched.None? then None else
        var text := g.runs(matched.value, part);
        if ExecutableSteps(text).None? then None else RunText(w, text, g.inverse(part), y.value)
  }

  /** What is asked for under the part is run as its steps are, inverted where the part says so. */
  ghost predicate RunsAsStated(g: Registry, requests: seq<Request>, n: Node, part: string) {
    var matched := FirstFor(g, requests, n, part);
    matched.Some? ==>
      var text := g.runs(matched.value, part);
      ExecutableSteps(text).Some? ==>
        NothingOmitted(text) && (g.inverse(part) ==> AllTurnOver(ExecutableSteps(text).value))
  }

  lemma {:induction false} ExpectedRuns<X(!new)>(w: World<X>, g: Registry, requests: seq<Request>, n: Node,
                                                 parts: seq<string>, x: X)
    requires Laws(w) && Expected(g, requests, n, parts).Some?
    requires forall i :: 0 <= i < |parts| ==> RunsAsStated(g, requests, n, parts[i])
    ensures Forward(w, Expected(g, requests, n, parts).value, x) == RunParts(w, g, requests, n, parts, x)
  {
    if parts == [] {
      return;
    }
    var before, part := parts[..|parts| - 1], parts[|parts| - 1];
    ExpectedRuns(w, g, requests, n, before, x);
    var text := g.runs(FirstFor(g, requests, n, part).value, part);
    assert RunsAsStated(g, requests, n, part);
    var steps := ExecutableSteps(text).value;
    hide Laws, ExecutableSteps, FirstFor, Directed, Meaning, RunText, NothingOmitted, AllTurnOver;
    ForwardJoined(w, Expected(g, requests, n, before).value, Directed(steps, g.inverse(part)), x);
    var y := RunParts(w, g, requests, n, before, x);
    if y.Some? {
      DirectedRuns(w, steps, g.inverse(part), y.value);
      RunsAsSteps(w, text, g.inverse(part), y.value);
    }
  }

  /** A fused step that is accepted runs the operations asked for in its name's order, and nothing else. */
  lemma FusedRunsWhatWasRequested<X(!new)>(w: World<X>, g: Registry, requests: seq<Request>, n: Node, x: X)
    requires Laws(w) && FusedAsRequested(g, requests, n) && NothingOmitted(n.content)
    requires forall i :: 0 <= i < |Split(n.name)| ==> RunsAsStated(g, requests, n, Split(n.name)[i])
    ensures RunText(w, n.content, false, x) == RunParts(w, g, requests, n, Split(n.name), x)
  {
    ExpectedRuns(w, g, requests, n, Split(n.name), x);
    SameStepsRunAlike(w, ExecutableSteps(n.content).value, Expected(g, requests, n, Split(n.name)).value, x);
    RunsAsSteps(w, n.content, false, x);
  }

  /** It need not where a step of an operation asked for backwards is omitted in one direction only: with a
      pipeline of that one step, an accepted fused step does something else in a lawful world. */
  lemma OmittedIsMissed(g: Registry, requests: seq<Request>, n: Node, part: string, step: seq<string>) returns (x: int)
    requires Split(n.name) == [part] && g.inverse(part) && FusedAsRequested(g, requests, n) && !IsBare(n.content)
    requires FirstFor(g, requests, n, part).Some?
    requires var text := g.runs(FirstFor(g, requests, n, part).value, part);
             !IsBare(text) && ExecutableSteps(text) == Some([step])
    requires !TurnsOver(step)
    ensures Laws(Counting())
    ensures RunText(Counting(), n.content, false, x) != RunParts(Counting(), g, requests, n, Split(n.name), x)
  {
    x := 0;
    CountingIsLawful();
    InverseTokensTurnOver(Counting(), step, false, x);
    assert Done(Counting(), multiset(step), true, x) != Some(x);
    OnlyPart(g, requests, n, part, step);
    OneStep(Counting(), InverseTokens(step), x);
    OneStepBack(Counting(), step, x);
    SameStepsRunAlike(Counting(), ExecutableSteps(n.content).value, [InverseTokens(step)], x);
    hide *;
    OnlyPartRun(Counting(), g, requests, n, part, x);
    PipelineRun(Counting(), n.content, false, x);
    PipelineRun(Counting(), g.runs(FirstFor(g, requests, n, part).value, part), true, x);
  }

  lemma PipelineRun<X>(w: World<X>, text: Text, back: bool, x: X)
    requires ExecutableSteps(text).Some? && !IsBare(text)
    ensures RunText(w, text, back, x)
            == var steps := ExecutableSteps(text).value; if back then Backward(w, steps, x) else Forward(w, steps, x)
  {}

  lemma OnlyPart(g: Registry, requests: seq<Request>, n: Node, part: string, step: seq<string>)
    requires g.inverse(part) && FirstFor(g, requests, n, part).Some?
    requires ExecutableSteps(g.runs(FirstFor(g, requests, n, part).value, part)) == Some([step])
    ensures Expected(g, requests, n, [part]) == Some([InverseTokens(step)])
  {
    assert [part][..0] == [];
    assert Directed([step], true) == [InverseTokens(step)];
    hide FirstFor, ExecutableSteps, InverseTokens, Directed;
    assert Expected(g, requests, n, [part][..0]) == Some([]);
    assert PartSteps(g, requests, n, [part][0]) == Some([InverseTokens(step)]);
    var none: seq<seq<string>> := [];
    assert none + [InverseTokens(step)] == [InverseTokens(step)];
  }

  lemma OnlyPartRun<X>(w: World<X>, g: Registry, requests: seq<Request>, n: Node, part: string, x: X)
    requires FirstFor(g, requests, n, part).Some?
    requires ExecutableSteps(g.runs(FirstFor(g, requests, n, part).value, part)).Some?
    ensures RunParts(w, g, requests, n, [part], x)
            == RunText(w, g.runs(FirstFor(g, requests, n, part).value, part), g.inverse(part), x)
  {
    hide FirstFor, ExecutableSteps, RunText;
    assert [part][..0] == [];
    assert RunParts(w, g, requests, n, [part][..0], x) == Some(x);
  }

  // ----- such a step

  const NAME := "Inverse of T"
  const OMITTING := ["proj=hgridshift", P.OMIT_BACKWARD]
  const REQUEST := Request(Some(("EPSG", "1")), None)

  /** A registry where an operation by that name shifts by a grid, left out backwards. */
  function Shifting(): Registry {
    Registry(name => name, name => true, request => Some(NAME),
             (request, part) => Words([P.PIPELINE, P.STEP] + OMITTING))
  }

  /** The node asked for, fused, which runs the step inverted. */
  function Shifted(): Node {
    Node(Transformation, Some(("EPSG", "1")), NAME, true,
         Words([P.PIPELINE, P.STEP] + (OMITTING + [P.INVERSE])), [])
  }

  /** It is accepted, and does something else than what was asked for. */
  lemma SomeOmittedIsMissed() returns (x: int)
    ensures FullyRequested(Shifting(), Shifted(), [REQUEST]) && Laws(Counting())
    ensures RunText(Counting(), Shifted().content, false, x)
            != RunParts(Counting(), Shifting(), [REQUEST], Shifted(), Split(NAME), x)
  {
    var g, n := Shifting(), Shifted();
    SplitsNowhere(NAME);
    OnlyRequestIsFirst(g, REQUEST, n, NAME);
    OmittingRuns();
    OnlyPart(g, [REQUEST], n, NAME, OMITTING);
    ShiftedIsFused();
    hide Split, FirstFor, ExecutableSteps, Expected, InverseTokens, TurnsOver, RunText, RunParts, Laws,
      FusedAsRequested;
    x := OmittedIsMissed(g, [REQUEST], n, NAME, OMITTING);
  }

  lemma ShiftedIsFused()
    requires Split(NAME) == [NAME] && InverseTokens(OMITTING) == OMITTING + [P.INVERSE]
    requires Expected(Shifting(), [REQUEST], Shifted(), [NAME]) == Some([InverseTokens(OMITTING)])
    requires ExecutableSteps(Shifted().content) == Some([OMITTING + [P.INVERSE]])
    ensures FusedAsRequested(Shifting(), [REQUEST], Shifted()) && FullyRequested(Shifting(), Shifted(), [REQUEST])
  {
    hide ExecutableSteps, InverseTokens;
  }

  lemma {:induction false} SplitsNowhere(name: string)
    requires '+' !in name
    ensures Split(name) == [name]
  {
    if |name| >= 3 {
      assert name[..3][1] == name[1];
      SplitsNowhere(name[1..]);
      assert [name[0]] + name[1..] == name;
    }
  }

  /** A request for an operation without steps, by its identifier and name, is for it. */
  lemma OnlyRequestIsFirst(g: Registry, request: Request, n: Node, name: string)
    requires IsOperation(n) && n.steps == [] && n.id == request.key && request.key.Some?
    requires request.name.None? && g.nameOf(request) == Some(name) && Split(name) == [name]
    ensures FirstFor(g, [request], n, name) == Some(request)
  {
    assert Nodes(n) == [n] && Matches(g, request, n);
    NamedByName(g, request, name);
    assert IsFor(g, request, n);
    hide *;
    AskedFirst(g, request, n, name);
  }

  lemma NamedByName(g: Registry, request: Request, name: string)
    requires request.name.None? && g.nameOf(request) == Some(name) && Split(name) == [name]
    ensures Named(g, request, name)
  {
    OneMatches(g, name);
  }

  lemma OneMatches(g: Registry, name: string)
    ensures MatchesAny(g, name, [name])
  {
    assert NameMatches(g, name, [name][0]);
  }

  lemma AskedFirst(g: Registry, request: Request, n: Node, name: string)
    requires IsFor(g, request, n) && Named(g, request, name)
    ensures FirstFor(g, [request], n, name) == Some(request)
  {
    hide IsFor, Named;
    assert [request][0] == request;
  }

  lemma OmittingRuns()
    ensures ExecutableSteps(Words([P.PIPELINE, P.STEP] + OMITTING)) == Some([OMITTING])
    ensures ExecutableSteps(Words([P.PIPELINE, P.STEP] + (OMITTING + [P.INVERSE]))) == Some([OMITTING + [P.INVERSE]])
    ensures InverseTokens(OMITTING) == OMITTING + [P.INVERSE] && !TurnsOver(OMITTING)
  {
    OneStepExecuted(OMITTING);
    OneStepExecuted(OMITTING + [P.INVERSE]);
    OmittingIsOmitted();
  }

  lemma OneStepExecuted(step: seq<string>)
    requires step != [] && P.NOOP !in step && P.STEP !in step
    requires forall i :: 0 <= i < |step| ==> P.Stripped(step[i]) == step[i]
    ensures ExecutableSteps(Words([P.PIPELINE, P.STEP] + step)) == Some([step])
  {
    OneGroup(step);
    OneKept(step);
    KeywordsStripped(step);
    var words := [P.PIPELINE, P.STEP] + step;
    assert words[1..] == [P.STEP] + step;
    hide P.Stripped, Stripped;
  }

  lemma OneGroup(step: seq<string>)
    requires P.STEP !in step
    ensures P.Grouped([P.STEP] + step) == Some([step])
  {
    P.GroupedNext([], step);
    var none: seq<string>, no: seq<seq<string>> := [], [];
    assert none + ([P.STEP] + step) == [P.STEP] + step && no + [step] == [step];
  }

  lemma KeywordsStripped(step: seq<string>)
    requires forall i :: 0 <= i < |step| ==> P.Stripped(step[i]) == step[i]
    ensures Stripped([P.PIPELINE, P.STEP] + step) == [P.PIPELINE, P.STEP] + step
  {
    AsStripped([P.PIPELINE, P.STEP] + step);
  }

  lemma AsStripped(words: seq<string>)
    requires forall i :: 0 <= i < |words| ==> P.Stripped(words[i]) == words[i]
    ensures Stripped(words) == words
  {}

  lemma OneKept(step: seq<string>)
    requires step != [] && P.NOOP !in step
    ensures Kept([step]) == [step]
  {
    assert [step][..0] == [] && Kept([step][..0]) == [];
  }

  lemma OmittingIsOmitted()
    ensures InverseTokens(OMITTING) == OMITTING + [P.INVERSE] && !TurnsOver(OMITTING)
  {
    assert P.OMIT_FORWARD[5] != P.OMIT_BACKWARD[5];
    assert OMITTING[1] == P.OMIT_BACKWARD && P.OMIT_FORWARD !in OMITTING && P.INVERSE !in OMITTING;
  }
}
