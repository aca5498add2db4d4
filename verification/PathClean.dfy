/** Cleaning a relative path: what is accepted stays below the base and names
    the same place. */
module PathClean {
  import opened Wrappers

  const PATH_BUF := 4096
  const MAX_PARTS := 256

  // ---- Components

  predicate IsName(part: string) {
    part != "" && '/' !in part
  }

  /** The components of a path: what lies between slashes, nothing dropped but
      nothing. */
  function Split(path: string, part: string): (parts: seq<string>)
    requires '/' !in part
    ensures forall i :: 0 <= i < |parts| ==> IsName(parts[i])
    decreases |path|
  {
    if path == "" then if part == "" then [] else [part]
    else if path[0] == '/' then (if part == "" then [] else [part]) + Split(path[1..], "")
    else Split(path[1..], part + [path[0]])
  }

  function Parts(path: string): seq<string> {
    Split(path, "")
  }

  function Join(parts: seq<string>): string {
    if parts == [] then "" else if |parts| == 1 then parts[0] else Join(parts[..|parts| - 1]) + "/" + parts[|parts| - 1]
  }

  // ---- Lexical locations

  /** Where a walk along the components leads from a place below the base; None
      if it climbs above the base. */
  function Walk(parts: seq<string>, at: seq<string>): Option<seq<string>> {
    if parts == [] then Some(at)
    else if parts[0] == "." then Walk(parts[1..], at)
    else if parts[0] == ".." then if at == [] then None else Walk(parts[1..], at[..|at| - 1])
    else Walk(parts[1..], at + [parts[0]])
  }

  lemma {:induction false} WalkAppend(a: seq<string>, b: seq<string>, at: seq<string>)
    ensures Walk(a + b, at) == if Walk(a, at).None? then None else Walk(b, Walk(a, at).value)
    decreases |a|
  {
    if a == [] {
      assert a + b == b;
    } else {
      assert (a + b)[1..] == a[1..] + b;
      if a[0] == "." {
        WalkAppend(a[1..], b, at);
      } else if a[0] == ".." {
        if at != [] {
          WalkAppend(a[1..], b, at[..|at| - 1]);
        }
      } else {
        WalkAppend(a[1..], b, at + [a[0]]);
      }
    }
  }

  /** A component that hides: a dot file, `.git` and `.squire` among them. */
  predicate Hidden(part: string) {
    part != "" && part[0] == '.' && part != "." && part != ".."
  }

  /** The place a path names if no component hides, it never climbs above the
      base and never has too many components pending. */
  function Place(parts: seq<string>, at: seq<string>): Option<seq<string>> {
    if parts == [] then Some(at)
    else if parts[0] == "." then Place(parts[1..], at)
    else if parts[0] == ".." then if at == [] then None else Place(parts[1..], at[..|at| - 1])
    else if Hidden(parts[0]) || |at| >= MAX_PARTS then None
    else Place(parts[1..], at + [parts[0]])
  }

  /** The path buffer holds all but the end of a very long input. */
  function Buffered(input: string): string {
    if |input| < PATH_BUF then input else input[..PATH_BUF - 1]
  }

  function Clean(input: string): Option<string> {
    if input == "" || input[0] == '-' || input[0] == '/' then None
    else
      var place := Place(Parts(Buffered(input)), []);
      if place.None? || place.value == [] || |Join(place.value)| >= PATH_BUF then None else Some(Join(place.value))
  }

  // ---- The cleaner

  /** The next component at or after `start`, and where it ends. */
  method NextPart(path: string, start: nat) returns (part: string, end: nat)
    requires start <= |path|
    ensures start <= end <= |path| && '/' !in part
    ensures part == "" ==> Parts(path[start..]) == []
    ensures part != "" ==> start < end && Parts(path[start..]) == [part] + Parts(path[end..])
  {
    end := start;
    while end < |path| && path[end] == '/'
      invariant start <= end <= |path| && Parts(path[end..]) == Parts(path[start..])
    {
      assert path[end..][1..] == path[end + 1..];
      end := end + 1;
    }
    part := "";
    ghost var first := end;
    while end < |path| && path[end] != '/'
      invariant first <= end <= |path| && '/' !in part && (end > first ==> part != "") && (end == first ==> part == "")
      invariant Split(path[end..], part) == Parts(path[first..])
    {
      assert path[end..][1..] == path[end + 1..];
      part := part + [path[end]];
      end := end + 1;
    }
    if end < |path| && part != "" {
      assert path[end..][1..] == path[end + 1..];
      SlashFirst(path[end..]);
    }
  }

  /** A leading slash adds no component. */
  lemma SlashFirst(path: string)
    requires path != "" && path[0] == '/'
    ensures Parts(path) == Parts(path[1..])
  {
  }

  method CleanRelativePath(input: string) returns (r: Option<string>)
    ensures r == Clean(input)
  {
    if input == "" || input[0] == '-' || input[0] == '/' {
      return None;
    }
    var path := Buffered(input);
    var parts: seq<string> := [];
    var part, end := NextPart(path, 0);
    assert path[0..] == path;
    while part != ""
      invariant end <= |path|
      invariant Place(Parts(path), []) ==
                if part == "" then Some(parts) else Place([part] + Parts(path[end..]), parts)
      decreases |path| - end, part != ""
    {
      assert ([part] + Parts(path[end..]))[1..] == Parts(path[end..]);
      if part == ".." {
        if |parts| == 0 {
          return None;
        }
        parts := parts[..|parts| - 1];
      } else if part != "." {
        if part[0] == '.' || |parts| >= MAX_PARTS {
          return None;
        }
        parts := parts + [part];
      }
      part, end := NextPart(path, end);
    }
    if |parts| == 0 {
      return None;
    }
    var out := parts[0];
    if |out| >= PATH_BUF {
      JoinGrows(parts, 1);
      return None;
    }
    for i := 1 to |parts|
      invariant out == Join(parts[..i]) && |out| < PATH_BUF
    {
      assert parts[..i + 1][..i] == parts[..i];
      out := out + "/" + parts[i];
      if |out| >= PATH_BUF {
        JoinGrows(parts, i + 1);
        return None;
      }
    }
    assert parts[..|parts|] == parts;
    r := Some(out);
  }

  lemma {:induction false} JoinGrows(parts: seq<string>, i: nat)
    requires 1 <= i <= |parts|
    ensures |Join(parts)| >= |Join(parts[..i])|
    decreases |parts| - i
  {
    if i == |parts| {
      assert parts[..i] == parts;
    } else {
      assert parts[..i + 1][..i] == parts[..i];
      JoinGrows(parts, i + 1);
    }
  }

  // ---- What cleaning promises

  predicate Plain(part: string) {
    IsName(part) && part[0] != '.'
  }

  predicate AllPlain(parts: seq<string>) {
    forall i :: 0 <= i < |parts| ==> Plain(parts[i])
  }

  lemma {:induction false} PlaceIsWalk(parts: seq<string>, at: seq<string>)
    requires AllPlain(at) && forall i :: 0 <= i < |parts| ==> IsName(parts[i])
    ensures Place(parts, at).Some? ==> Walk(parts, at) == Place(parts, at) && AllPlain(Place(parts, at).value) &&
                                       (|at| <= MAX_PARTS ==> |Place(parts, at).value| <= MAX_PARTS)
    decreases |parts|
  {
    if parts != [] {
      if parts[0] == "." {
        PlaceIsWalk(parts[1..], at);
      } else if parts[0] == ".." {
        if at != [] {
          PlaceIsWalk(parts[1..], at[..|at| - 1]);
        }
      } else if !Hidden(parts[0]) && |at| < MAX_PARTS {
        PlaceIsWalk(parts[1..], at + [parts[0]]);
      }
    }
  }

  lemma {:induction false} SplitName(name: string, part: string, rest: string)
    requires '/' !in name && '/' !in part
    ensures Split(name + rest, part) == Split(rest, part + name)
    decreases |name|
  {
    if name == "" {
      assert name + rest == rest && part + name == part;
    } else {
      assert (name + rest)[1..] == name[1..] + rest;
      SplitName(name[1..], part + [name[0]], rest);
      assert (part + [name[0]]) + name[1..] == part + name;
    }
  }

  lemma {:induction false} SplitConcat(a: string, part: string, b: string)
    requires '/' !in part
    ensures Split(a + "/" + b, part) == Split(a, part) + Parts(b)
    decreases |a|
  {
    var whole := a + "/" + b;
    if a == "" {
      assert whole[1..] == b;
    } else {
      assert whole[1..] == a[1..] + "/" + b;
      if a[0] == '/' {
        SplitConcat(a[1..], "", b);
      } else {
        SplitConcat(a[1..], part + [a[0]], b);
      }
    }
  }

  /** Joined components are split again as they were. */
  lemma {:induction false} SplitJoined(parts: seq<string>)
    requires forall i :: 0 <= i < |parts| ==> IsName(parts[i])
    ensures Parts(Join(parts)) == parts
    decreases |parts|
  {
    if parts != [] {
      var last := parts[|parts| - 1];
      assert Parts(last) == [last] by {
        SplitName(last, "", "");
        assert last + "" == last && "" + last == last;
      }
      if |parts| == 1 {
        assert parts == [last];
      } else {
        SplitJoined(parts[..|parts| - 1]);
        SplitConcat(Join(parts[..|parts| - 1]), "", last);
      }
    }
  }

  lemma {:induction false} PlainStays(parts: seq<string>, at: seq<string>)
    requires AllPlain(parts) && |at| + |parts| <= MAX_PARTS
    ensures Place(parts, at) == Some(at + parts)
    decreases |parts|
  {
    if parts == [] {
      assert at + parts == at;
    } else {
      assert Plain(parts[0]);
      PlainStays(parts[1..], at + [parts[0]]);
      assert (at + [parts[0]]) + parts[1..] == at + parts;
    }
  }

  /** An accepted path names, as a lexical location, what its input names; no
      prefix of the input climbs above the base; every component is there, plain
      and does not start with a dot. */
  lemma CleanIsContained(input: string, n: nat)
    requires |input| < PATH_BUF && Clean(input).Some? && n <= |Parts(input)|
    ensures var out := Clean(input).value;
            && Walk(Parts(input), []) == Some(Parts(out)) && Walk(Parts(out), []) == Some(Parts(out))
            && Parts(out) != [] && AllPlain(Parts(out)) && out == Join(Parts(out)) && |out| < PATH_BUF
            && Walk(Parts(input)[..n], []).Some?
  {
    hide Split, Join;
    var place := Place(Parts(input), []).value;
    PlaceIsWalk(Parts(input), []);
    assert forall i :: 0 <= i < |place| ==> Plain(place[i]);
    SplitJoined(place);
    PlainStays(place, []);
    PlaceIsWalk(place, []);
    assert [] + place == place;
    assert Parts(input) == Parts(input)[..n] + Parts(input)[n..];
    WalkAppend(Parts(input)[..n], Parts(input)[n..], []);
  }

  /** Cleaning again changes nothing, unless the result starts with a dash. */
  lemma CleanTwice(input: string)
    requires |input| < PATH_BUF && Clean(input).Some?
    ensures var out := Clean(input).value;
            out != "" && Clean(out) == if out[0] == '-' then None else Some(out)
  {
    hide Split;
    var out := Clean(input).value;
    CleanIsContained(input, 0);
    var place := Parts(out);
    PlaceIsWalk(Parts(input), []);
    PlainStays(place, []);
    assert [] + place == place;
    JoinStarts(place);
  }

  lemma {:induction false} JoinStarts(parts: seq<string>)
    requires parts != [] && AllPlain(parts)
    ensures Join(parts) != "" && Join(parts)[0] == parts[0][0] != '/'
    decreases |parts|
  {
    assert Plain(parts[0]);
    assert parts[0][0] in parts[0];
    if |parts| > 1 {
      JoinStarts(parts[..|parts| - 1]);
    }
  }

  // ---- Exactly what is accepted

  /** A walk along the components meets nothing that hides, never climbs above the
      base and never has more than 256 components pending. */
  ghost predicate Passable(parts: seq<string>, at: seq<string>) {
    && (forall i :: 0 <= i < |parts| && parts[i] != "." && parts[i] != ".." ==> !("." <= parts[i]))
    && forall n :: 0 <= n <= |parts| ==> Walk(parts[..n], at).Some? && |Walk(parts[..n], at).value| <= 256
  }

  /** Where the walk is after the first component. */
  function Step(part: string, at: seq<string>): Option<seq<string>> {
    if part == "." then Some(at)
    else if part == ".." then if at == [] then None else Some(at[..|at| - 1])
    else Some(at + [part])
  }

  lemma WalkPrefix(parts: seq<string>, at: seq<string>, n: nat)
    requires 1 <= n <= |parts|
    ensures var next := Step(parts[0], at);
            Walk(parts[..n], at) == if next.None? then None else Walk(parts[1..][..n - 1], next.value)
  {
    assert parts[..n][0] == parts[0] && parts[..n][1..] == parts[1..][..n - 1];
  }

  lemma PassableStep(parts: seq<string>, at: seq<string>)
    requires parts != [] && |at| <= 256
    ensures var next := Step(parts[0], at);
            Passable(parts, at) <==>
              && (parts[0] == "." || parts[0] == ".." || !("." <= parts[0]))
              && next.Some? && |next.value| <= 256 && Passable(parts[1..], next.value)
  {
    hide Walk;
    var next := Step(parts[0], at);
    StartsHere(parts, at);
    forall n | 1 <= n <= |parts|
      ensures Walk(parts[..n], at) == if next.None? then None else Walk(parts[1..][..n - 1], next.value)
    {
      WalkPrefix(parts, at, n);
    }
    if Passable(parts, at) {
      assert Walk(parts[..1], at).Some?;
      StartsHere(parts[1..], next.value);
      forall n | 0 <= n <= |parts[1..]|
        ensures Walk(parts[1..][..n], next.value).Some? && |Walk(parts[1..][..n], next.value).value| <= 256
      {
        assert Walk(parts[..n + 1], at) == Walk(parts[1..][..n], next.value);
      }
    } else if next.Some? && Passable(parts[1..], next.value) {
      forall n | 0 <= n <= |parts|
        ensures Walk(parts[..n], at).Some? && |Walk(parts[..n], at).value| <= 256
      {
        if n > 0 {
          assert Walk(parts[1..][..n - 1], next.value).Some?;
        }
      }
    }
  }

  lemma StartsHere(parts: seq<string>, at: seq<string>)
    ensures Walk(parts[..0], at) == Some(at)
  {
  }

  lemma HiddenIs(part: string)
    requires part != "." && part != ".."
    ensures Hidden(part) <==> "." <= part
  {
  }

  lemma {:induction false} PlaceExact(parts: seq<string>, at: seq<string>)
    requires |at| <= 256
    ensures Place(parts, at) == if Passable(parts, at) then Walk(parts, at) else None
    decreases |parts|
  {
    hide Passable, Hidden;
    if parts == [] {
      NothingPasses(at);
    } else {
      PassableStep(parts, at);
      var next := Step(parts[0], at);
      if parts[0] != "." && parts[0] != ".." {
        HiddenIs(parts[0]);
      }
      if next.Some? && |next.value| <= 256 {
        PlaceExact(parts[1..], next.value);
      }
    }
  }

  lemma NothingPasses(at: seq<string>)
    requires |at| <= 256
    ensures Passable([], at)
  {
    var none: seq<string> := [];
    forall n | 0 <= n <= |none|
      ensures none[..n] == none
    {
    }
  }

  /** A path is accepted exactly if it is not absolute and no option, its walk is
      passable and leads below the base, and the result fits; the result is the
      components of that place between single slashes. */
  lemma CleanExact(input: string, out: string)
    requires |input| < PATH_BUF
    ensures Clean(input) == Some(out) <==>
              && input != "" && input[0] != '-' && input[0] != '/'
              && Passable(Parts(input), []) && Walk(Parts(input), []).Some? && Walk(Parts(input), []).value != []
              && out == Join(Walk(Parts(input), []).value) && |out| < 4096
  {
    hide Join, Split;
    PlaceExact(Parts(input), []);
    if Passable(Parts(input), []) {
      WholeWalk(Parts(input));
    }
  }

  lemma WholeWalk(parts: seq<string>)
    requires Passable(parts, [])
    ensures Walk(parts, []).Some?
  {
    assert parts[..|parts|] == parts;
  }

  /** In a joined path every slash stands between two characters that are none. */
  lemma {:induction false} JoinTidy(parts: seq<string>)
    requires parts != [] && forall i :: 0 <= i < |parts| ==> IsName(parts[i])
    ensures var out := Join(parts);
            && out != "" && out[0] != '/' && out[|out| - 1] != '/'
            && forall i :: 0 <= i < |out| - 1 && out[i] == '/' ==> out[i + 1] != '/'
    decreases |parts|
  {
    var last := parts[|parts| - 1];
    assert last[0] in last && last[|last| - 1] in last;
    if |parts| > 1 {
      JoinTidy(parts[..|parts| - 1]);
      Tidy(Join(parts[..|parts| - 1]), last);
    }
  }

  lemma Tidy(before: string, last: string)
    requires before != "" && before[0] != '/' && before[|before| - 1] != '/' && IsName(last)
    requires forall i :: 0 <= i < |before| - 1 && before[i] == '/' ==> before[i + 1] != '/'
    ensures var out := before + "/" + last;
            && out[0] != '/' && out[|out| - 1] != '/'
            && forall i :: 0 <= i < |out| - 1 && out[i] == '/' ==> out[i + 1] != '/'
  {
    var out := before + "/" + last;
    forall i | 0 <= i < |out| - 1 && out[i] == '/'
      ensures out[i + 1] != '/'
    {
      if i >= |before| {
        assert out[i + 1] == last[i - |before|] && last[i - |before|] in last;
      }
    }
    assert out[|out| - 1] == last[|last| - 1] && last[|last| - 1] in last;
  }
}
