/** Endpoint handling of src/main.cpp: splitting the space-separated
    endpoint entry of the settings file (string_to_vector), merging it with
    the command-line endpoints, and joining the merged list back into one
    space-separated entry. */
module Endpoints {
  import opened Types

  // ---------------------------------------------------------------------
  // Splitting
  // ---------------------------------------------------------------------

  /** The first space at or after position `from`, or None (std::string::npos). */
  function FindSpace(s: string, from: nat): (r: Option<nat>)
    ensures r.Some? ==> from <= r.value < |s| && s[r.value] == ' '
    ensures r.Some? ==> forall i :: from <= i < r.value ==> s[i] != ' '
    ensures r.None? ==> forall i :: from <= i < |s| ==> s[i] != ' '
    decreases |s| - from
  {
    if from >= |s| then None
    else if s[from] == ' ' then Some(from)
    else FindSpace(s, from + 1)
  }

  /** The pieces of `s` between maximal runs of spaces: a run of one or more
      spaces separates two pieces; a leading run yields an empty first
      piece and a trailing run an empty last piece. */
  function Fields(s: string): (r: seq<string>)
    ensures |r| >= 1
    decreases |s|
  {
    if s == [] then [""]
    else if s[0] == ' ' then
      if |s| > 1 && s[1] == ' ' then Fields(s[1..]) else [""] + Fields(s[1..])
    else
      var rest := Fields(s[1..]);
      [[s[0]] + rest[0]] + rest[1..]
  }

  /** What string_to_vector returns: the pieces only when `s` holds a space,
      and nothing at all otherwise (the final piece is added only when the
      scan position has moved past 0). */
  function SplitAsWritten(s: string): (r: seq<string>)
    ensures r == [] <==> ' ' !in s
    ensures |r| != 1
  {
    if ' ' in s then FieldsWithSpace(s); Fields(s) else []
  }

  /** The evident intent of string_to_vector: every item of a non-empty
      string, including the only item of a string without a space. */
  function SplitIntended(s: string): (r: seq<string>)
    ensures r == [] <==> s == ""
    ensures ' ' in s ==> r == SplitAsWritten(s)
  {
    if s == "" then [] else Fields(s)
  }

  /** No piece contains a space. */
  lemma {:induction false} FieldsSpaceFree(s: string)
    ensures forall i :: 0 <= i < |Fields(s)| ==> ' ' !in Fields(s)[i]
    decreases |s|
  {
    if s != [] {
      FieldsSpaceFree(s[1..]);
      if s[0] != ' ' {
        var rest := Fields(s[1..]);
        assert ' ' !in rest[0];
        assert ' ' !in [s[0]] + rest[0];
      }
    }
  }

  lemma {:induction false} FieldsOfSpaceFree(t: string)
    requires ' ' !in t
    ensures Fields(t) == [t]
    decreases |t|
  {
    if t != [] {
      FieldsOfSpaceFree(t[1..]);
      assert [t[0]] + t[1..] == t;
    }
  }

  /** A string holding a space splits into at least two pieces. */
  lemma {:induction false} FieldsWithSpace(s: string)
    requires ' ' in s
    ensures |Fields(s)| >= 2
    decreases |s|
  {
    if s[0] == ' ' {
      if |s| > 1 && s[1] == ' ' {
        FieldsWithSpace(s[1..]);
      }
    } else {
      assert ' ' in s[1..];
      FieldsWithSpace(s[1..]);
    }
  }

  /** A run of spaces `s[from..end]` at the front of `s[from..]` yields one
      empty piece. */
  lemma {:induction false} FieldsSkipRun(s: string, from: nat, end: nat)
    requires from < end <= |s|
    requires forall i :: from <= i < end ==> s[i] == ' '
    requires end == |s| || s[end] != ' '
    ensures Fields(s[from..]) == [""] + Fields(s[end..])
    decreases end - from
  {
    assert s[from..][1..] == s[from + 1..];
    if end > from + 1 {
      FieldsSkipRun(s, from + 1, end);
    }
  }

  /** A non-space character extends the first piece. */
  lemma FieldsPrepend(c: char, u: string)
    requires c != ' '
    ensures Fields([c] + u) == [[c] + Fields(u)[0]] + Fields(u)[1..]
  {
    assert ([c] + u)[1..] == u;
  }

  /** Splitting off the first piece of `s[from..]`: `s[from..e]` holds no
      space and is followed by the maximal run of spaces `s[e..end]`. */
  lemma {:induction false} FieldsSplitAt(s: string, from: nat, e: nat, end: nat)
    requires from <= e < end <= |s|
    requires forall i :: from <= i < e ==> s[i] != ' '
    requires forall i :: e <= i < end ==> s[i] == ' '
    requires end == |s| || s[end] != ' '
    ensures Fields(s[from..]) == [s[from..e]] + Fields(s[end..])
    decreases e - from
  {
    if from == e {
      FieldsSkipRun(s, from, end);
    } else {
      assert s[from..] == [s[from]] + s[from + 1..];
      FieldsPrepend(s[from], s[from + 1..]);
      FieldsSplitAt(s, from + 1, e, end);
      assert [s[from]] + s[from + 1..e] == s[from..e];
    }
  }

  /** string_to_vector (src/main.cpp:188-207): repeatedly find the next
      space, emit the piece before it, skip the whole run of spaces (the
      scan stops at the string's terminator), and finally emit the rest
      when at least one space was found. */
  method StringToVector(s: string) returns (v: seq<string>)
    ensures v == SplitAsWritten(s)
  {
    v := [];
    var start: nat := 0;
    var found := FindSpace(s, start);
    while found.Some?
      invariant start <= |s|
      invariant found == FindSpace(s, start)
      invariant start > 0 ==> s[start - 1] == ' '
      invariant start == 0 ==> v == []
      invariant v + Fields(s[start..]) == Fields(s)
      decreases |s| - start
    {
      var end := found.value;
      ghost var before := v;
      v := v + [s[start..end]];
      end := end + 1;
      while end < |s| && s[end] == ' '
        invariant found.value < end <= |s|
        invariant forall i :: found.value <= i < end ==> s[i] == ' '
      {
        end := end + 1;
      }
      FieldsSplitAt(s, start, found.value, end);
      assert v + Fields(s[end..]) == before + ([s[start..found.value]] + Fields(s[end..]));
      start := end;
      found := FindSpace(s, start);
    }
    FieldsOfSpaceFreeTail(s, start);
    if 0 < start {
      v := v + [s[start..]];
    }
  }

  /** After the last space the rest of the string is the final piece. */
  lemma FieldsOfSpaceFreeTail(s: string, from: nat)
    requires from <= |s|
    requires forall i :: from <= i < |s| ==> s[i] != ' '
    ensures Fields(s[from..]) == [s[from..]]
    ensures from == 0 ==> ' ' !in s
  {
    assert ' ' !in s[from..] by {
      forall i | 0 <= i < |s| - from ensures s[from..][i] != ' ' {
        assert s[from..][i] == s[from + i];
      }
    }
    FieldsOfSpaceFree(s[from..]);
    assert from == 0 ==> s[from..] == s;
  }

  /** Piece contents and order: concatenating the pieces gives back the
      input with its spaces removed. */
  function Concat(pieces: seq<string>): string {
    if pieces == [] then "" else pieces[0] + Concat(pieces[1..])
  }

  function RemoveSpaces(s: string): (r: string)
    ensures ' ' !in r
  {
    if s == [] then "" else if s[0] == ' ' then RemoveSpaces(s[1..]) else [s[0]] + RemoveSpaces(s[1..])
  }

  lemma {:induction false} FieldsConcat(s: string)
    ensures Concat(Fields(s)) == RemoveSpaces(s)
    decreases |s|
  {
    if s != [] {
      FieldsConcat(s[1..]);
      if s[0] != ' ' {
        var rest := Fields(s[1..]);
        assert rest == [rest[0]] + rest[1..];
        assert Concat(rest) == rest[0] + Concat(rest[1..]);
        var r := [[s[0]] + rest[0]] + rest[1..];
        assert r[1..] == rest[1..];
        assert Concat(r) == ([s[0]] + rest[0]) + Concat(rest[1..]);
      } else if !(|s| > 1 && s[1] == ' ') {
        assert ([""] + Fields(s[1..]))[1..] == Fields(s[1..]);
      }
    }
  }

  /** A run of several spaces separates exactly as a single space does. */
  lemma {:induction false} FieldsCollapseRun(t: string, i: nat)
    requires i + 1 < |t| && t[i] == ' ' && t[i + 1] == ' '
    ensures Fields(t) == Fields(t[..i] + t[i + 1..])
    decreases i
  {
    var u := t[..i] + t[i + 1..];
    if i == 0 {
      assert u == t[1..];
    } else if i == 1 && t[0] == ' ' {
      assert u == t[1..];
    } else {
      assert u[0] == t[0];
      assert u[1..] == t[1..][..i - 1] + t[1..][i..];
      FieldsCollapseRun(t[1..], i - 1);
      assert |u| > 1 && u[1] == t[1];
    }
  }

  lemma {:induction false} FieldsLeadingSpace(t: string)
    requires t != [] && t[0] == ' '
    ensures Fields(t)[0] == ""
    decreases |t|
  {
    if |t| > 1 && t[1] == ' ' {
      FieldsLeadingSpace(t[1..]);
    }
  }

  lemma {:induction false} FieldsTrailingSpace(t: string)
    requires t != [] && t[|t| - 1] == ' '
    ensures |Fields(t)| >= 2 && Fields(t)[|Fields(t)| - 1] == ""
    decreases |t|
  {
    if |t| > 1 {
      assert t[1..][|t[1..]| - 1] == ' ';
      FieldsTrailingSpace(t[1..]);
    }
  }

  /** Source behaviour on a string with no space: no endpoints at all. */
  lemma SplitAsWrittenWithoutSpace(s: string)
    requires ' ' !in s
    ensures SplitAsWritten(s) == []
    ensures s != "" ==> SplitIntended(s) == [s]
  {
    FieldsOfSpaceFree(s);
  }

  /** A leading space yields an empty first piece, a trailing space an
      empty last piece. */
  lemma SplitAsWrittenEdges(s: string)
    requires s != ""
    ensures s[0] == ' ' ==> SplitAsWritten(s) != [] && SplitAsWritten(s)[0] == ""
    ensures s[|s| - 1] == ' ' ==>
      |SplitAsWritten(s)| >= 2 && SplitAsWritten(s)[|SplitAsWritten(s)| - 1] == ""
  {
    if s[0] == ' ' {
      FieldsLeadingSpace(s);
    }
    if s[|s| - 1] == ' ' {
      FieldsTrailingSpace(s);
    }
  }

  // ---------------------------------------------------------------------
  // Joining
  // ---------------------------------------------------------------------

  /** The first endpoint followed by " " + ep for each later one. */
  function Join(eps: seq<string>): string
    requires |eps| >= 1
  {
    if |eps| == 1 then eps[0] else eps[0] + " " + Join(eps[1..])
  }

  lemma {:induction false} JoinSnoc(eps: seq<string>, x: string)
    requires |eps| >= 1
    ensures Join(eps + [x]) == Join(eps) + " " + x
    decreases |eps|
  {
    if |eps| == 1 {
      assert eps + [x] == [eps[0], x];
      assert [eps[0], x][1..] == [x];
    } else {
      assert (eps + [x])[1..] == eps[1..] + [x];
      JoinSnoc(eps[1..], x);
    }
  }

  /** The endpoint entry written to the settings file (src/main.cpp:408-414):
      nothing for an empty list, otherwise the endpoints joined by single
      spaces. */
  method JoinEndpoints(eps: seq<string>) returns (entry: Option<string>)
    ensures eps == [] ==> entry == None
    ensures eps != [] ==> entry == Some(Join(eps))
  {
    if 0 < |eps| {
      var joined := eps[0];
      var i := 1;
      while i < |eps|
        invariant 1 <= i <= |eps|
        invariant joined == Join(eps[..i])
      {
        JoinSnoc(eps[..i], eps[i]);
        assert eps[..i + 1] == eps[..i] + [eps[i]];
        joined := joined + ([' '] + eps[i]);
        i := i + 1;
      }
      assert eps[..i] == eps;
      entry := Some(joined);
    } else {
      entry := None;
    }
  }

  /** A well-formed endpoint: non-empty and free of spaces. */
  predicate IsEndpoint(e: string) {
    e != "" && ' ' !in e
  }

  lemma {:induction false} JoinShape(eps: seq<string>)
    requires |eps| >= 1 && forall i :: 0 <= i < |eps| ==> IsEndpoint(eps[i])
    ensures Join(eps) != "" && Join(eps)[0] != ' '
    ensures (' ' in Join(eps)) <==> |eps| >= 2
    decreases |eps|
  {
    if |eps| > 1 {
      JoinShape(eps[1..]);
      var j := eps[0] + " " + Join(eps[1..]);
      assert j[|eps[0]|] == ' ';
      assert j[0] == eps[0][0];
    }
  }

  /** Splitting the joined entry at its runs of spaces gives back the list. */
  lemma {:induction false} FieldsOfJoin(eps: seq<string>)
    requires |eps| >= 1 && forall i :: 0 <= i < |eps| ==> IsEndpoint(eps[i])
    ensures Fields(Join(eps)) == eps
    decreases |eps|
  {
    if |eps| == 1 {
      FieldsOfSpaceFree(eps[0]);
    } else {
      var rest := Join(eps[1..]);
      JoinShape(eps[1..]);
      var t := eps[0] + " " + rest;
      var n := |eps[0]|;
      assert t[..n] == eps[0];
      assert t[n] == ' ';
      assert n + 1 == |t| || t[n + 1] == rest[0];
      FieldsSplitAt(t, 0, n, n + 1);
      assert t[0..] == t;
      assert t[n + 1..] == rest;
      FieldsOfJoin(eps[1..]);
      assert [eps[0]] + eps[1..] == eps;
    }
  }

  /** The round trip as the source performs it: two or more endpoints come
      back unchanged, a single endpoint comes back as nothing. */
  lemma JoinSplitAsWritten(eps: seq<string>)
    requires |eps| >= 1 && forall i :: 0 <= i < |eps| ==> IsEndpoint(eps[i])
    ensures |eps| >= 2 ==> SplitAsWritten(Join(eps)) == eps
    ensures |eps| == 1 ==> SplitAsWritten(Join(eps)) == []
  {
    JoinShape(eps);
    FieldsOfJoin(eps);
  }

  /** The concrete input that exposes the lost endpoint. */
  lemma SingleEndpointIsLost()
    ensures SplitAsWritten(Join(["tcp://127.0.0.1:8080"])) == []
  {
    JoinSplitAsWritten(["tcp://127.0.0.1:8080"]);
  }

  /** An endpoint that itself holds a space does not survive the round
      trip: it comes back as several endpoints. */
  lemma EndpointWithSpaceIsSplit()
    ensures Join(["a b", "c"]) == "a b c"
    ensures SplitAsWritten(Join(["a b", "c"])) == ["a", "b", "c"]
  {
    FieldsOfSpaceFree("c");
    assert " c"[1..] == "c";
    assert Fields(" c") == ["", "c"];
    assert "b c" == ['b'] + " c";
    FieldsPrepend('b', " c");
    assert ['b'] + "" == "b";
    assert " b c"[1..] == "b c";
    assert Fields(" b c") == ["", "b", "c"];
    assert "a b c" == ['a'] + " b c";
    FieldsPrepend('a', " b c");
    assert ['a'] + "" == "a";
  }

  /** The round trip with the intended splitter holds for every non-empty list. */
  lemma JoinSplitIntended(eps: seq<string>)
    requires |eps| >= 1 && forall i :: 0 <= i < |eps| ==> IsEndpoint(eps[i])
    ensures SplitIntended(Join(eps)) == eps
  {
    JoinShape(eps);
    FieldsOfJoin(eps);
  }

  // ---------------------------------------------------------------------
  // Merging
  // ---------------------------------------------------------------------

  /** Appends each of `xs`, in order, unless it is already in the list. */
  function Merge(acc: seq<string>, xs: seq<string>): seq<string>
    decreases |xs|
  {
    if xs == [] then acc
    else Merge(if xs[0] in acc then acc else acc + [xs[0]], xs[1..])
  }

  /** The endpoint merge of src/main.cpp:293-316: the config-file endpoints
      first, then the command-line ones, each appended only when std::find
      does not already see it in the list. */
  method MergeEndpoints(config: seq<string>, commandLine: seq<string>) returns (endpoints: seq<string>)
    ensures endpoints == Merge(Merge([], config), commandLine)
  {
    endpoints := [];
    for i := 0 to |config|
      invariant Merge(endpoints, config[i..]) == Merge([], config)
    {
      assert config[i..][1..] == config[i + 1..];
      if config[i] !in endpoints {
        endpoints := endpoints + [config[i]];
      }
    }
    ghost var fromConfig := endpoints;
    for i := 0 to |commandLine|
      invariant Merge(endpoints, commandLine[i..]) == Merge(fromConfig, commandLine)
    {
      assert commandLine[i..][1..] == commandLine[i + 1..];
      if commandLine[i] !in endpoints {
        endpoints := endpoints + [commandLine[i]];
      }
    }
  }

  predicate NoDuplicates(s: seq<string>) {
    forall i, j :: 0 <= i < j < |s| ==> s[i] != s[j]
  }

  /** Merging in two steps is merging the concatenation. */
  lemma {:induction false} MergeAppend(acc: seq<string>, xs: seq<string>, ys: seq<string>)
    ensures Merge(Merge(acc, xs), ys) == Merge(acc, xs + ys)
    decreases |xs|
  {
    if xs != [] {
      assert (xs + ys)[0] == xs[0] && (xs + ys)[1..] == xs[1..] + ys;
      MergeAppend(if xs[0] in acc then acc else acc + [xs[0]], xs[1..], ys);
    } else {
      assert xs + ys == ys;
    }
  }

  /** The list merged so far stays a prefix of the result. */
  lemma {:induction false} MergePrefix(acc: seq<string>, xs: seq<string>)
    ensures |acc| <= |Merge(acc, xs)| && Merge(acc, xs)[..|acc|] == acc
    decreases |xs|
  {
    if xs != [] {
      var next := if xs[0] in acc then acc else acc + [xs[0]];
      MergePrefix(next, xs[1..]);
      assert next[..|acc|] == acc;
      assert Merge(acc, xs)[..|acc|] == Merge(acc, xs)[..|next|][..|acc|];
    }
  }

  /** Merging never introduces a duplicate. */
  lemma {:induction false} MergeNoDuplicates(acc: seq<string>, xs: seq<string>)
    requires NoDuplicates(acc)
    ensures NoDuplicates(Merge(acc, xs))
    decreases |xs|
  {
    if xs != [] {
      MergeNoDuplicates(if xs[0] in acc then acc else acc + [xs[0]], xs[1..]);
    }
  }

  /** The result holds exactly the elements of both inputs. */
  lemma {:induction false} MergeElements(acc: seq<string>, xs: seq<string>)
    ensures forall x :: x in Merge(acc, xs) <==> x in acc || x in xs
    decreases |xs|
  {
    if xs != [] {
      MergeElements(if xs[0] in acc then acc else acc + [xs[0]], xs[1..]);
      assert xs == [xs[0]] + xs[1..];
    }
  }

  /** The list merged so far stays a prefix, without duplicates, and the
      result holds exactly the elements of both inputs. */
  lemma MergeShape(acc: seq<string>, xs: seq<string>)
    requires NoDuplicates(acc)
    ensures |acc| <= |Merge(acc, xs)| && Merge(acc, xs)[..|acc|] == acc
    ensures NoDuplicates(Merge(acc, xs))
    ensures forall x :: x in Merge(acc, xs) <==> x in acc || x in xs
  {
    MergePrefix(acc, xs);
    MergeNoDuplicates(acc, xs);
    MergeElements(acc, xs);
  }

  /** Index of the first occurrence of `x` in `s`. */
  function FirstIndex(s: seq<string>, x: string): (k: nat)
    requires x in s
    ensures k < |s| && s[k] == x
    ensures forall i :: 0 <= i < k ==> s[i] != x
  {
    if s[0] == x then 0 else 1 + FirstIndex(s[1..], x)
  }

  lemma FirstIndexIs(s: seq<string>, x: string, k: nat)
    requires k < |s| && s[k] == x
    requires forall i :: 0 <= i < k ==> s[i] != x
    ensures FirstIndex(s, x) == k
  {
  }

  /** In a list without duplicates, the first occurrence is the only one. */
  lemma FirstIndexNoDuplicates(s: seq<string>, i: nat)
    requires NoDuplicates(s) && i < |s|
    ensures FirstIndex(s, s[i]) == i
  {
    FirstIndexIs(s, s[i], i);
  }

  /** Dropping an element `x` already present in `acc` from the front of the
      tail shifts the first index of every later element by one. */
  lemma FirstIndexSkip(acc: seq<string>, x: string, rest: seq<string>, y: string)
    requires x in acc && y in acc + rest
    ensures y in acc + ([x] + rest)
    ensures FirstIndex(acc + ([x] + rest), y) == FirstIndex(acc + rest, y) + (if y in acc then 0 else 1)
    ensures y in acc <==> FirstIndex(acc + rest, y) < |acc|
  {
    var w := acc + rest;
    var v := acc + ([x] + rest);
    var g := FirstIndex(w, y);
    if y in acc {
      var f := FirstIndex(acc, y);
      FirstIndexIs(v, y, f);
      FirstIndexIs(w, y, f);
    } else {
      assert y != x;
      forall i | 0 <= i < g + 1 ensures v[i] != y {
        if i >= |acc| + 1 {
          assert v[i] == w[i - 1];
        }
      }
      assert v[g + 1] == w[g];
      FirstIndexIs(v, y, g + 1);
    }
  }

  /** Every element of `r` occurs in `s`, and `r` lists them in the order
      of their first occurrence in `s`. */
  predicate OrderedBy(r: seq<string>, s: seq<string>) {
    && (forall x :: x in r ==> x in s)
    && (forall i, j :: 0 <= i < j < |r| ==> r[i] in s && r[j] in s && FirstIndex(s, r[i]) < FirstIndex(s, r[j]))
  }

  lemma OrderedByDistinct(s: seq<string>)
    requires NoDuplicates(s)
    ensures OrderedBy(s, s)
  {
    forall i, j | 0 <= i < j < |s|
      ensures FirstIndex(s, s[i]) < FirstIndex(s, s[j])
    {
      FirstIndexNoDuplicates(s, i);
      FirstIndexNoDuplicates(s, j);
    }
  }

  /** Inserting an element already present in `acc` keeps the order. */
  lemma OrderedBySkip(r: seq<string>, acc: seq<string>, x: string, rest: seq<string>)
    requires x in acc && OrderedBy(r, acc + rest)
    ensures OrderedBy(r, acc + ([x] + rest))
  {
    forall y | y in r ensures y in acc + ([x] + rest) {
      FirstIndexSkip(acc, x, rest, y);
    }
    forall i, j | 0 <= i < j < |r|
      ensures FirstIndex(acc + ([x] + rest), r[i]) < FirstIndex(acc + ([x] + rest), r[j])
    {
      FirstIndexSkip(acc, x, rest, r[i]);
      FirstIndexSkip(acc, x, rest, r[j]);
    }
  }

  /** The merged list keeps the elements in the order of their first
      occurrence in the concatenated input. */
  lemma {:induction false} MergeOrder(acc: seq<string>, xs: seq<string>)
    requires NoDuplicates(acc)
    ensures OrderedBy(Merge(acc, xs), acc + xs)
    decreases |xs|
  {
    if xs == [] {
      assert acc + xs == acc;
      OrderedByDistinct(acc);
    } else if xs[0] !in acc {
      var next := acc + [xs[0]];
      MergeShape(next, []);
      MergeOrder(next, xs[1..]);
      assert next + xs[1..] == acc + xs;
    } else {
      MergeOrder(acc, xs[1..]);
      assert xs == [xs[0]] + xs[1..];
      OrderedBySkip(Merge(acc, xs[1..]), acc, xs[0], xs[1..]);
    }
  }

  /** What the endpoint merge of src/main.cpp:293-316 guarantees: the
      de-duplicated config endpoints come first and unchanged, the list has
      no duplicates, it holds exactly the endpoints of both inputs, and it
      keeps them in the order of their first occurrence in the config
      endpoints followed by the command-line ones. */
  lemma MergedEndpoints(config: seq<string>, commandLine: seq<string>)
    ensures var r := Merge(Merge([], config), commandLine);
      && |Merge([], config)| <= |r|
      && Merge([], config) == r[..|Merge([], config)|]
      && NoDuplicates(r)
      && (forall x :: x in r <==> x in config || x in commandLine)
      && (forall i, j :: 0 <= i < j < |r| ==>
            FirstIndex(config + commandLine, r[i]) < FirstIndex(config + commandLine, r[j]))
  {
    MergeShape([], config);
    MergeShape(Merge([], config), commandLine);
    MergeAppend([], config, commandLine);
    MergeOrder([], config + commandLine);
    assert [] + (config + commandLine) == config + commandLine;
  }

  /** Merging endpoints that are already distinct appends them unchanged. */
  lemma {:induction false} MergeDistinct(acc: seq<string>, xs: seq<string>)
    requires NoDuplicates(acc + xs)
    ensures Merge(acc, xs) == acc + xs
    decreases |xs|
  {
    if xs != [] {
      assert (acc + xs)[|acc|] == xs[0];
      assert forall i :: 0 <= i < |acc| ==> acc[i] == (acc + xs)[i];
      assert acc + xs == (acc + [xs[0]]) + xs[1..];
      MergeDistinct(acc + [xs[0]], xs[1..]);
    }
  }
}
