/** Comparing a recorded environment with the present one: the selected entries
    in order, or else as a set, through an open-addressing table. */
module EnvTable {
  import opened Wrappers
  import opened Bloom

  const MAX_INPUTS := 4096
  const MAX_SELECTED := 512
  const TABLE_SLOTS := 1024

  // ---- Entries

  function KeyOf(entry: string): (key: string)
    ensures |key| <= |entry| && '=' !in key
  {
    if entry == "" || entry[0] == '=' then "" else [entry[0]] + KeyOf(entry[1..])
  }

  /** The key is short enough and a value follows. */
  predicate GoodKey(entry: string) {
    '=' in entry && 1 <= |KeyOf(entry)| < 128
  }

  /** Which keys matter to the recorded command. */
  type Selection = string -> bool

  predicate Chosen(sel: Selection, entry: string) {
    sel(KeyOf(entry))
  }

  /** The entries whose keys matter, in order. */
  function Selected(env: seq<string>, sel: Selection): seq<string> {
    if env == [] then []
    else Selected(env[..|env| - 1], sel) + if Chosen(sel, env[|env| - 1]) then [env[|env| - 1]] else []
  }

  predicate GoodEntries(env: seq<string>, sel: Selection) {
    forall i :: 0 <= i < |env| ==> Chosen(sel, env[i]) ==> GoodKey(env[i])
  }

  predicate AllAssign(env: seq<string>) {
    forall i :: 0 <= i < |env| ==> '=' in env[i]
  }

  /** Within the limits, and every selected entry is a key and a value. */
  predicate WellFormed(env: seq<string>, sel: Selection) {
    |env| <= MAX_INPUTS && GoodEntries(env, sel) && |Selected(env, sel)| <= MAX_SELECTED
  }

  ghost predicate DistinctKeys(entries: seq<string>) {
    forall i, j :: 0 <= i < j < |entries| ==> KeyOf(entries[i]) != KeyOf(entries[j])
  }

  /** The environments agree on what is selected: the same sequence, or, where no
      key is given twice, the same entries in any order. */
  ghost predicate Agree(expected: seq<string>, actual: seq<string>, sel: Selection) {
    var e, a := Selected(expected, sel), Selected(actual, sel);
    e == a || (DistinctKeys(e) && multiset(e) == multiset(a))
  }

  lemma SelectedStep(env: seq<string>, sel: Selection, i: nat)
    requires i < |env|
    ensures Selected(env[..i + 1], sel) == Selected(env[..i], sel) + if Chosen(sel, env[i]) then [env[i]] else []
  {
    assert env[..i + 1][..i] == env[..i];
  }

  lemma {:induction false} SelectedGrows(env: seq<string>, sel: Selection, i: nat)
    requires i <= |env|
    ensures |Selected(env[..i], sel)| <= |Selected(env, sel)|
    decreases |env| - i
  {
    if i == |env| {
      assert env[..i] == env;
    } else {
      SelectedStep(env, sel, i);
      SelectedGrows(env, sel, i + 1);
    }
  }

  /** Reading one entry more: what it means for the prefix and for the whole. */
  lemma EntryRead(env: seq<string>, sel: Selection, i: nat)
    requires i < |env|
    ensures Chosen(sel, env[i]) ==> Selected(env[..i + 1], sel) == Selected(env[..i], sel) + [env[i]]
    ensures !Chosen(sel, env[i]) ==> Selected(env[..i + 1], sel) == Selected(env[..i], sel)
    ensures |Selected(env[..i + 1], sel)| <= |Selected(env, sel)|
    ensures GoodEntries(env[..i], sel) && (Chosen(sel, env[i]) ==> GoodKey(env[i])) ==> GoodEntries(env[..i + 1], sel)
    ensures AllAssign(env[..i]) && '=' in env[i] ==> AllAssign(env[..i + 1])
    ensures GoodEntries(env, sel) ==> Chosen(sel, env[i]) ==> GoodKey(env[i])
    ensures AllAssign(env) ==> '=' in env[i]
  {
    hide Selected, Chosen, GoodKey;
    SelectedStep(env, sel, i);
    SelectedGrows(env, sel, i + 1);
  }

  // ---- Keys and values

  /** A variable with its value, or a bare name. */
  datatype Variable = Variable(key: string, value: Option<string>)

  function Text(v: Variable): string {
    if v.value.None? then v.key else v.key + "=" + v.value.value
  }

  function Texts(vars: seq<Variable>): (texts: seq<string>)
    ensures |texts| == |vars| && forall i :: 0 <= i < |vars| ==> texts[i] == Text(vars[i])
  {
    seq(|vars|, i requires 0 <= i < |vars| => Text(vars[i]))
  }

  /** The names hold no `=`. */
  predicate Named(vars: seq<Variable>) {
    forall v :: v in vars ==> '=' !in v.key
  }

  /** The environment is these variables written out. */
  predicate Writes(vars: seq<Variable>, env: seq<string>) {
    Named(vars) && env == Texts(vars)
  }

  /** The variables whose keys matter, in order. */
  function Picked(vars: seq<Variable>, sel: Selection): seq<Variable> {
    if vars == [] then [] else (if sel(vars[0].key) then [vars[0]] else []) + Picked(vars[1..], sel)
  }

  predicate AllSet(vars: seq<Variable>) {
    forall v :: v in vars ==> v.value.Some?
  }

  /** At most 4096 variables, at most 512 of them picked, and each of those set
      and named by 1 to 127 bytes. */
  predicate Usable(vars: seq<Variable>, sel: Selection) {
    && |vars| <= 4096 && |Picked(vars, sel)| <= 512
    && forall v :: v in Picked(vars, sel) ==> v.value.Some? && 1 <= |v.key| < 128
  }

  ghost predicate DistinctNames(vars: seq<Variable>) {
    forall i, j :: 0 <= i < j < |vars| ==> vars[i].key != vars[j].key
  }

  /** The same picked variables in the same order, or, where no name comes twice,
      in any order. */
  ghost predicate SameVariables(expected: seq<Variable>, actual: seq<Variable>, sel: Selection) {
    var e, a := Picked(expected, sel), Picked(actual, sel);
    e == a || (DistinctNames(e) && multiset(e) == multiset(a))
  }

  ghost predicate SameInOrder(expected: seq<Variable>, actual: seq<Variable>, sel: Selection) {
    && Usable(expected, sel) && AllSet(expected) && Usable(actual, sel)
    && Picked(expected, sel) == Picked(actual, sel)
  }

  /** The recorded environment is acceptable in the present one. */
  ghost predicate Accepts(expected: seq<Variable>, actual: seq<Variable>, sel: Selection) {
    Usable(expected, sel) && AllSet(expected) && Usable(actual, sel) && SameVariables(expected, actual, sel)
  }

  /** A key ends at the first `=`, whatever follows it; without one the entry is
      its own key. */
  lemma {:induction false} KeyOfText(v: Variable)
    requires '=' !in v.key
    ensures KeyOf(Text(v)) == v.key && ('=' in Text(v) <==> v.value.Some?)
    decreases |v.key|
  {
    if v.key != "" {
      var rest := Variable(v.key[1..], v.value);
      KeyOfText(rest);
      assert Text(v)[1..] == Text(rest) && Text(v)[0] == v.key[0];
      assert v.key == [v.key[0]] + v.key[1..];
      assert Text(v) == [v.key[0]] + Text(rest);
    }
  }

  lemma TextOnce(v: Variable, w: Variable)
    requires '=' !in v.key && '=' !in w.key && Text(v) == Text(w)
    ensures v == w
  {
    KeyOfText(v);
    KeyOfText(w);
    if v.value.Some? {
      assert Text(v)[|v.key| + 1..] == v.value.value && Text(w)[|w.key| + 1..] == w.value.value;
    }
  }

  /** Every entry is some variable written out. */
  lemma {:induction false} TextRead(entry: string) returns (v: Variable)
    ensures '=' !in v.key && Text(v) == entry
  {
    if entry == "" {
      v := Variable("", None);
    } else if entry[0] == '=' {
      v := Variable("", Some(entry[1..]));
      assert Text(v) == "=" + entry[1..];
    } else {
      var rest := TextRead(entry[1..]);
      v := Variable([entry[0]] + rest.key, rest.value);
      assert Text(v) == [entry[0]] + Text(rest);
    }
  }

  lemma {:induction false} EnvironmentRead(env: seq<string>) returns (vars: seq<Variable>)
    ensures Writes(vars, env)
  {
    hide Text;
    if env == [] {
      vars := [];
    } else {
      var first := TextRead(env[0]);
      var rest := EnvironmentRead(env[1..]);
      vars := [first] + rest;
      assert Texts(vars) == [env[0]] + env[1..];
    }
  }

  lemma {:induction false} SelectedAppend(a: seq<string>, b: seq<string>, sel: Selection)
    ensures Selected(a + b, sel) == Selected(a, sel) + Selected(b, sel)
    decreases |b|
  {
    hide Chosen;
    if b == [] {
      assert a + b == a;
    } else {
      var init, last := b[..|b| - 1], b[|b| - 1];
      assert (a + b)[..|a + b| - 1] == a + init;
      SelectedAppend(a, init, sel);
    }
  }

  lemma TextsJoin(a: seq<Variable>, b: seq<Variable>)
    ensures Texts(a + b) == Texts(a) + Texts(b)
    ensures Named(a + b) <==> Named(a) && Named(b)
  {
    hide Text;
    assert forall v :: v in a + b <==> v in a || v in b;
  }

  lemma OneText(v: Variable)
    ensures Texts([v]) == [Text(v)] && (Named([v]) <==> '=' !in v.key)
  {
  }

  lemma PickedFirst(vars: seq<Variable>, env: seq<string>, sel: Selection)
    requires Writes(vars, env) && vars != []
    ensures Writes(vars[1..], env[1..])
    ensures Selected(env, sel) == (if sel(vars[0].key) then [Text(vars[0])] else []) + Selected(env[1..], sel)
  {
    hide Text, KeyOf, Selected, Texts, Named;
    assert vars == [vars[0]] + vars[1..];
    TextsJoin([vars[0]], vars[1..]);
    OneText(vars[0]);
    KeyOfText(vars[0]);
    assert env[1..] == Texts(vars[1..]) && env[0] == Text(vars[0]) && env == [env[0]] + env[1..];
    SelectedAppend([env[0]], env[1..], sel);
    OneSelected(env[0], sel);
  }

  lemma OneSelected(entry: string, sel: Selection)
    ensures Selected([entry], sel) == if Chosen(sel, entry) then [entry] else []
  {
    assert Selected([entry][..0], sel) == [];
  }

  lemma {:induction false} PickedMembers(vars: seq<Variable>, sel: Selection, v: Variable)
    ensures v in Picked(vars, sel) <==> v in vars && sel(v.key)
  {
    if vars != [] {
      PickedMembers(vars[1..], sel, v);
    }
  }

  /** Selecting entries is picking variables. */
  lemma {:induction false} SelectedIsPicked(vars: seq<Variable>, env: seq<string>, sel: Selection)
    requires Writes(vars, env)
    ensures Selected(env, sel) == Texts(Picked(vars, sel)) && Named(Picked(vars, sel))
    decreases |vars|
  {
    hide Text, Selected, Texts, Named, Writes;
    if vars == [] {
      NothingPicked(env, sel);
    } else {
      NameHolds(vars, env);
      PickedFirst(vars, env, sel);
      SelectedIsPicked(vars[1..], env[1..], sel);
      OneText(vars[0]);
      TextsJoin([vars[0]], Picked(vars[1..], sel));
      assert [] + Selected(env[1..], sel) == Selected(env[1..], sel);
      assert [] + Picked(vars[1..], sel) == Picked(vars[1..], sel);
    }
  }

  lemma NothingPicked(env: seq<string>, sel: Selection)
    requires Writes([], env)
    ensures Selected(env, sel) == Texts([]) == [] && Named([])
  {
  }

  lemma NameHolds(vars: seq<Variable>, env: seq<string>)
    requires Writes(vars, env) && vars != []
    ensures |env| == |vars| && '=' !in vars[0].key
  {
    assert vars[0] in vars;
  }

  lemma GoodIsUsable(vars: seq<Variable>, env: seq<string>, sel: Selection)
    requires Writes(vars, env)
    ensures WellFormed(env, sel) <==> Usable(vars, sel)
    ensures AllAssign(env) <==> AllSet(vars)
  {
    hide Selected, Picked, KeyOf;
    SelectedIsPicked(vars, env, sel);
    forall i | 0 <= i < |env|
      ensures KeyOf(env[i]) == vars[i].key && ('=' in env[i] <==> vars[i].value.Some?)
      ensures sel(vars[i].key) ==> vars[i] in Picked(vars, sel)
    {
      assert vars[i] in vars;
      PickedMembers(vars, sel, vars[i]);
      KeyOfText(vars[i]);
    }
    if GoodEntries(env, sel) {
      forall v | v in Picked(vars, sel)
        ensures v.value.Some? && 1 <= |v.key| < 128
      {
        PickedMembers(vars, sel, v);
        var i :| 0 <= i < |vars| && vars[i] == v;
        assert Chosen(sel, env[i]);
      }
    }
    if AllAssign(env) {
      forall v | v in vars
        ensures v.value.Some?
      {
        var i :| 0 <= i < |vars| && vars[i] == v;
        assert '=' in env[i];
      }
    }
  }

  lemma DistinctIs(vars: seq<Variable>)
    requires Named(vars)
    ensures DistinctKeys(Texts(vars)) <==> DistinctNames(vars)
  {
    hide KeyOf;
    forall i | 0 <= i < |vars|
      ensures KeyOf(Texts(vars)[i]) == vars[i].key
    {
      assert vars[i] in vars;
      KeyOfText(vars[i]);
    }
  }

  lemma TextsOnce(a: seq<Variable>, b: seq<Variable>)
    requires Named(a) && Named(b) && Texts(a) == Texts(b)
    ensures a == b
  {
    assert |a| == |b|;
    forall i | 0 <= i < |a|
      ensures a[i] == b[i]
    {
      assert a[i] in a && b[i] in b && Texts(a)[i] == Texts(b)[i];
      TextOnce(a[i], b[i]);
    }
  }

  lemma {:induction false} TextsCount(vars: seq<Variable>, v: Variable)
    requires Named(vars) && '=' !in v.key
    ensures multiset(Texts(vars))[Text(v)] == multiset(vars)[v]
  {
    hide Text, Texts, Named;
    if vars == [] {
      NoTexts();
    } else {
      var first, rest := vars[0], vars[1..];
      assert vars == [first] + rest;
      TextsJoin([first], rest);
      OneText(first);
      TextsCount(rest, v);
      if Text(first) == Text(v) {
        TextOnce(first, v);
      }
    }
  }

  lemma NoTexts()
    ensures Texts([]) == []
  {
  }

  lemma SameCounts(a: seq<Variable>, b: seq<Variable>)
    requires Named(a) && Named(b)
    ensures multiset(Texts(a)) == multiset(Texts(b)) <==> multiset(a) == multiset(b)
  {
    if multiset(Texts(a)) == multiset(Texts(b)) {
      forall v
        ensures multiset(a)[v] == multiset(b)[v]
      {
        if '=' !in v.key {
          TextsCount(a, v);
          TextsCount(b, v);
        } else {
          assert v !in a && v !in b;
        }
      }
    }
    if multiset(a) == multiset(b) {
      forall t
        ensures multiset(Texts(a))[t] == multiset(Texts(b))[t]
      {
        var v := TextRead(t);
        TextsCount(a, v);
        TextsCount(b, v);
      }
    }
  }

  /** Agreement of entries is agreement of variables. */
  lemma AgreementIs(expected: seq<string>, actual: seq<string>, e: seq<Variable>, a: seq<Variable>, sel: Selection)
    requires Writes(e, expected) && Writes(a, actual)
    ensures Selected(expected, sel) == Selected(actual, sel) <==> Picked(e, sel) == Picked(a, sel)
    ensures Agree(expected, actual, sel) <==> SameVariables(e, a, sel)
    ensures WellFormed(expected, sel) && AllAssign(expected) && WellFormed(actual, sel) <==>
            Usable(e, sel) && AllSet(e) && Usable(a, sel)
  {
    hide Selected, Picked, WellFormed, Usable, AllAssign, AllSet, DistinctKeys, DistinctNames, Texts;
    SelectedIsPicked(e, expected, sel);
    SelectedIsPicked(a, actual, sel);
    GoodIsUsable(e, expected, sel);
    GoodIsUsable(a, actual, sel);
    DistinctIs(Picked(e, sel));
    SameCounts(Picked(e, sel), Picked(a, sel));
    if Selected(expected, sel) == Selected(actual, sel) {
      TextsOnce(Picked(e, sel), Picked(a, sel));
    }
  }

  /** An accepted environment has each variable that matters with its recorded
      value, and no other one that matters. */
  lemma AcceptedMeans(expected: seq<Variable>, actual: seq<Variable>, sel: Selection, v: Variable)
    requires Accepts(expected, actual, sel) && Named(expected) && Named(actual) && sel(v.key)
    ensures v in expected <==> v in actual
  {
    hide Picked, Usable;
    PickedMembers(expected, sel, v);
    PickedMembers(actual, sel, v);
    var e, a := Picked(expected, sel), Picked(actual, sel);
    assert multiset(e) == multiset(a);
    assert v in e <==> v in multiset(e);
    assert v in a <==> v in multiset(a);
  }

  // ---- The same order

  datatype Found = Malformed | End | Entry(entry: string)

  /** The next selected recorded entry; all entries passed must assign. */
  method NextExpected(env: seq<string>, sel: Selection, start: nat, count: nat)
    returns (r: Found, i: nat)
    requires start <= |env| <= MAX_INPUTS && count == |Selected(env[..start], sel)| <= MAX_SELECTED
    ensures start <= i <= |env|
    ensures r.Malformed? ==> !(WellFormed(env, sel) && AllAssign(env))
    ensures !r.Malformed? && GoodEntries(env[..start], sel) && AllAssign(env[..start]) ==>
              GoodEntries(env[..i], sel) && AllAssign(env[..i])
    ensures r.End? ==> i == |env| && Selected(env, sel) == Selected(env[..start], sel)
    ensures r.Entry? ==> Selected(env[..i], sel) == Selected(env[..start], sel) + [r.entry] && count + 1 <= MAX_SELECTED
  {
    hide Selected, KeyOf, GoodEntries, AllAssign;
    i := start;
    while i < |env|
      invariant start <= i <= |env|
      invariant Selected(env[..i], sel) == Selected(env[..start], sel)
      invariant GoodEntries(env[..start], sel) && AllAssign(env[..start]) ==>
                  GoodEntries(env[..i], sel) && AllAssign(env[..i])
    {
      var entry := env[i];
      EntryRead(env, sel, i);
      i := i + 1;
      if '=' !in entry {
        return Malformed, i;
      }
      if Chosen(sel, entry) {
        if |KeyOf(entry)| == 0 || |KeyOf(entry)| >= 128 || count + 1 > MAX_SELECTED {
          return Malformed, i;
        }
        return Entry(entry), i;
      }
    }
    assert env[..i] == env;
    r := End;
  }

  /** The next selected entry of the present environment. */
  method NextActual(env: seq<string>, sel: Selection, start: nat, count: nat)
    returns (r: Found, i: nat)
    requires start <= |env| && count == |Selected(env[..start], sel)| <= MAX_SELECTED
    ensures start <= i <= |env|
    ensures r.Malformed? ==> !WellFormed(env, sel)
    ensures !r.Malformed? && GoodEntries(env[..start], sel) ==> GoodEntries(env[..i], sel)
    ensures r.End? ==> i == |env| <= MAX_INPUTS && Selected(env, sel) == Selected(env[..start], sel)
    ensures r.Entry? ==> Selected(env[..i], sel) == Selected(env[..start], sel) + [r.entry] && count + 1 <= MAX_SELECTED
  {
    hide Selected, KeyOf, GoodEntries, AllAssign;
    i := start;
    while true
      invariant start <= i <= |env|
      invariant Selected(env[..i], sel) == Selected(env[..start], sel)
      invariant GoodEntries(env[..start], sel) ==> GoodEntries(env[..i], sel)
      decreases |env| - i
    {
      if i > MAX_INPUTS {
        return Malformed, i;
      }
      if i == |env| {
        break;
      }
      var entry := env[i];
      EntryRead(env, sel, i);
      i := i + 1;
      if Chosen(sel, entry) {
        if '=' !in entry || |KeyOf(entry)| == 0 || |KeyOf(entry)| >= 128 || count + 1 > MAX_SELECTED {
          return Malformed, i;
        }
        return Entry(entry), i;
      }
    }
    assert env[..i] == env;
    r := End;
  }

  /** Do the selected entries agree one by one? Nothing, if the input is
      malformed or over a limit. */
  method SequencesEqual(expected: seq<string>, actual: seq<string>, sel: Selection) returns (r: Option<bool>)
    ensures r == Some(true) <==>
              WellFormed(expected, sel) && AllAssign(expected) && WellFormed(actual, sel) &&
              Selected(expected, sel) == Selected(actual, sel)
    ensures r.None? ==> !(WellFormed(expected, sel) && AllAssign(expected) && WellFormed(actual, sel))
    ensures forall e, a :: Writes(e, expected) && Writes(a, actual) ==>
              && (r == Some(true) <==> SameInOrder(e, a, sel))
              && (r.None? ==> !(Usable(e, sel) && AllSet(e) && Usable(a, sel)))
  {
    r := CompareEntries(expected, actual, sel);
    forall e, a | Writes(e, expected) && Writes(a, actual)
      ensures r == Some(true) <==> SameInOrder(e, a, sel)
      ensures r.None? ==> !(Usable(e, sel) && AllSet(e) && Usable(a, sel))
    {
      hide Writes, Usable, AllSet, WellFormed, AllAssign, Selected, Picked;
      AgreementIs(expected, actual, e, a, sel);
    }
  }

  method CompareEntries(expected: seq<string>, actual: seq<string>, sel: Selection) returns (r: Option<bool>)
    ensures r == Some(true) <==>
              WellFormed(expected, sel) && AllAssign(expected) && WellFormed(actual, sel) &&
              Selected(expected, sel) == Selected(actual, sel)
    ensures r.None? ==> !(WellFormed(expected, sel) && AllAssign(expected) && WellFormed(actual, sel))
  {
    if |expected| > MAX_INPUTS {
      return None;
    }
    var i, j, count := 0, 0, 0;
    while true
      invariant i <= |expected| && j <= |actual|
      invariant Selected(expected[..i], sel) == Selected(actual[..j], sel)
      invariant count == |Selected(expected[..i], sel)| <= MAX_SELECTED
      invariant GoodEntries(expected[..i], sel) && AllAssign(expected[..i]) && GoodEntries(actual[..j], sel)
      decreases MAX_SELECTED - count
    {
      var e, i' := NextExpected(expected, sel, i, count);
      if e.Malformed? {
        return None;
      }
      var a, j' := NextActual(actual, sel, j, count);
      if a.Malformed? {
        return None;
      }
      if e.End? || a.End? {
        assert e.End? ==> expected[..i'] == expected;
        assert a.End? ==> actual[..j'] == actual;
        Ends(expected, actual, sel, i', j', e, a);
        return Some(e.End? && a.End?);
      }
      if e.entry != a.entry {
        Differ(expected, actual, sel, i', j', count);
        return Some(false);
      }
      i, j, count := i', j', count + 1;
    }
  }

  lemma {:induction false} SelectedPrefix(env: seq<string>, sel: Selection, i: nat)
    requires i <= |env|
    ensures Selected(env[..i], sel) <= Selected(env, sel)
    decreases |env| - i
  {
    if i == |env| {
      assert env[..i] == env;
    } else {
      SelectedStep(env, sel, i);
      SelectedPrefix(env, sel, i + 1);
    }
  }

  lemma Ends(expected: seq<string>, actual: seq<string>, sel: Selection, i: nat, j: nat, e: Found, a: Found)
    requires i <= |expected| && j <= |actual| && (e.End? || a.End?)
    requires e.End? ==> i == |expected|
    requires a.End? ==> j == |actual|
    requires |Selected(expected[..i], sel)| - (if e.End? then 0 else 1)
          == |Selected(actual[..j], sel)| - (if a.End? then 0 else 1)
    ensures e.End? != a.End? ==> Selected(expected, sel) != Selected(actual, sel)
    ensures e.End? ==> expected[..i] == expected
    ensures a.End? ==> actual[..j] == actual
  {
    SelectedPrefix(expected, sel, i);
    SelectedPrefix(actual, sel, j);
    if e.End? {
      assert expected[..i] == expected;
    }
    if a.End? {
      assert actual[..j] == actual;
    }
  }

  lemma Differ(expected: seq<string>, actual: seq<string>, sel: Selection, i: nat, j: nat, k: nat)
    requires i <= |expected| && j <= |actual|
    requires k < |Selected(expected[..i], sel)| && k < |Selected(actual[..j], sel)|
    requires Selected(expected[..i], sel)[k] != Selected(actual[..j], sel)[k]
    ensures Selected(expected, sel) != Selected(actual, sel)
  {
    SelectedPrefix(expected, sel, i);
    SelectedPrefix(actual, sel, j);
  }

  // ---- The table

  datatype Slot = Slot(entry: string, hash: bv64, occupied: bool, seen: bool)

  const FREE := Slot("", 0, false, false)

  function HashKey(key: string): bv64 {
    HashFrom(FNV_OFFSET, key)
  }

  function Home(hash: bv64): (home: nat)
    ensures home < TABLE_SLOTS
  {
    (hash & 1023) as nat
  }

  /** The slot `probe` places after a key's home, round the end. */
  function Place(hash: bv64, probe: nat): (p: nat)
    ensures p < TABLE_SLOTS
  {
    (Home(hash) + probe) % TABLE_SLOTS
  }

  predicate HasKey(slot: Slot, key: string) {
    slot.occupied && KeyOf(slot.entry) == key
  }

  /** Every place before `probe` is taken by other keys. */
  ghost predicate Passed(table: seq<Slot>, key: string, probe: nat)
    requires |table| == TABLE_SLOTS
  {
    forall q: nat :: q < probe ==> table[Place(HashKey(key), q)].occupied && !HasKey(table[Place(HashKey(key), q)], key)
  }

  /** Where an occupied slot's key is looked for, it is found. */
  ghost predicate Settled(table: seq<Slot>, p: nat)
    requires |table| == TABLE_SLOTS && p < TABLE_SLOTS
  {
    table[p].occupied ==>
      && table[p].hash == HashKey(KeyOf(table[p].entry))
      && exists probe: nat :: probe < TABLE_SLOTS && Place(HashKey(KeyOf(table[p].entry)), probe) == p &&
                              Passed(table, KeyOf(table[p].entry), probe)
  }

  ghost predicate TableValid(table: seq<Slot>)
    ensures TableValid(table) ==> |table| == TABLE_SLOTS
  {
    |table| == TABLE_SLOTS && forall p :: 0 <= p < TABLE_SLOTS ==> Settled(table, p)
  }

  /** No slot holds the key. */
  ghost predicate Absent(table: seq<Slot>, key: string) {
    forall p :: 0 <= p < |table| ==> !HasKey(table[p], key)
  }

  /** Find the slot of a key, or the free one where it belongs. */
  method FindSlot(table: array<Slot>, key: string, hash: bv64) returns (r: Option<nat>)
    requires TableValid(table[..]) && hash == HashKey(key)
    ensures r.None? ==> forall p :: 0 <= p < TABLE_SLOTS ==> table[p].occupied
    ensures r.Some? ==> r.value < TABLE_SLOTS
    ensures r.Some? && table[r.value].occupied ==> HasKey(table[r.value], key)
    ensures r.Some? && !table[r.value].occupied ==>
              exists probe: nat :: probe < TABLE_SLOTS && Place(hash, probe) == r.value && Passed(table[..], key, probe)
  {
    hide HashFrom, Home, KeyOf;
    var probe := 0;
    while probe < TABLE_SLOTS
      invariant probe <= TABLE_SLOTS && Passed(table[..], key, probe)
    {
      var p := Place(hash, probe);
      var slot := table[p];
      assert slot == table[..][p] && Settled(table[..], p);
      if !slot.occupied || (slot.hash == hash && KeyOf(slot.entry) == key) {
        return Some(p);
      }
      probe := probe + 1;
    }
    forall p | 0 <= p < TABLE_SLOTS
      ensures table[p].occupied
    {
      EveryPlace(hash, p);
      var q: nat :| q < TABLE_SLOTS && Place(hash, q) == p;
      assert table[..][Place(hash, q)].occupied;
    }
    r := None;
  }

  /** A probe sequence visits every slot. */
  lemma EveryPlace(hash: bv64, p: nat)
    requires p < TABLE_SLOTS
    ensures exists q: nat :: q < TABLE_SLOTS && Place(hash, q) == p
  {
    var q := (p + TABLE_SLOTS - Home(hash)) % TABLE_SLOTS;
    assert Place(hash, q) == p;
  }

  /** A probe sequence that has passed only other keys stops at an occupied slot
      while the key is in the table. */
  lemma HeldStopsProbe(table: seq<Slot>, key: string, probe: nat, p: nat)
    requires TableValid(table) && Passed(table, key, probe) && p < TABLE_SLOTS && HasKey(table[p], key)
    ensures table[Place(HashKey(key), probe)].occupied
  {
    hide HashFrom, Home, KeyOf, Place, HashKey;
    assert Settled(table, p);
    var d: nat :| d < TABLE_SLOTS && Place(HashKey(key), d) == p && Passed(table, key, d);
    assert d >= probe;
  }

  /** Reaching a free slot means the key is nowhere in the table. */
  lemma FreeMeansAbsent(table: seq<Slot>, key: string, probe: nat)
    requires TableValid(table) && Passed(table, key, probe) && !table[Place(HashKey(key), probe)].occupied
    ensures Absent(table, key)
  {
    hide HashFrom, Home, KeyOf, Place, HashKey, TableValid, Passed;
    forall p | 0 <= p < |table|
      ensures !HasKey(table[p], key)
    {
      if HasKey(table[p], key) {
        HeldStopsProbe(table, key, probe, p);
      }
    }
  }

  function Occupied(table: seq<Slot>): set<nat> {
    set p: nat | p < |table| && table[p].occupied
  }

  function Below(n: nat): (s: set<nat>)
    ensures |s| == n && forall p: nat :: p in s <==> p < n
  {
    if n == 0 then {} else Below(n - 1) + {n - 1}
  }

  /** With fewer entries than slots the probe loop always ends at a slot. */
  lemma NeverFull(table: seq<Slot>)
    requires |table| == TABLE_SLOTS && |Occupied(table)| < TABLE_SLOTS
    ensures exists p :: 0 <= p < TABLE_SLOTS && !table[p].occupied
  {
    if forall p :: 0 <= p < TABLE_SLOTS ==> table[p].occupied {
      FullCount(table);
    }
  }

  lemma FullCount(table: seq<Slot>)
    requires |table| == TABLE_SLOTS && forall p :: 0 <= p < TABLE_SLOTS ==> table[p].occupied
    ensures |Occupied(table)| == TABLE_SLOTS
  {
    assert Occupied(table) == Below(TABLE_SLOTS);
  }

  // ---- Filling the table

  /** The occupied slots hold exactly these entries. */
  ghost predicate Stores(table: seq<Slot>, entries: seq<string>)
    ensures Stores(table, entries) ==> DistinctKeys(entries)
  {
    && TableValid(table) && DistinctKeys(entries) && |Occupied(table)| == |entries|
    && (forall p :: 0 <= p < TABLE_SLOTS && table[p].occupied ==> table[p].entry in entries)
    && (forall i :: 0 <= i < |entries| ==> !Absent(table, KeyOf(entries[i])))
  }

  lemma InsertSettles(table: seq<Slot>, entry: string, probe: nat)
    requires TableValid(table) && probe < TABLE_SLOTS && Passed(table, KeyOf(entry), probe)
    requires !table[Place(HashKey(KeyOf(entry)), probe)].occupied
    ensures TableValid(table[Place(HashKey(KeyOf(entry)), probe) := Slot(entry, HashKey(KeyOf(entry)), true, false)])
  {
    hide HashFrom, Home, KeyOf, Place, HashKey;
    var key := KeyOf(entry);
    var at := Place(HashKey(key), probe);
    var table' := table[at := Slot(entry, HashKey(key), true, false)];
    FreeMeansAbsent(table, key, probe);
    forall p | 0 <= p < TABLE_SLOTS
      ensures Settled(table', p)
    {
      assert Settled(table, p);
      if p == at {
        assert Passed(table', key, probe);
      } else if table[p].occupied {
        var k := KeyOf(table[p].entry);
        var d: nat :| d < TABLE_SLOTS && Place(HashKey(k), d) == p && Passed(table, k, d);
        assert !HasKey(table[p], key);
        assert Passed(table', k, d);
      }
    }
  }

  function Put(table: seq<Slot>, entry: string, at: nat): seq<Slot>
    requires at < |table|
  {
    table[at := Slot(entry, HashKey(KeyOf(entry)), true, false)]
  }

  lemma PutFinds(table: seq<Slot>, entry: string, at: nat, key: string)
    requires at < |table| && !table[at].occupied
    ensures !Absent(table, key) || key == KeyOf(entry) ==> !Absent(Put(table, entry, at), key)
    ensures Occupied(Put(table, entry, at)) == Occupied(table) + {at}
  {
    hide KeyOf, HashKey;
    var table' := Put(table, entry, at);
    if p :| 0 <= p < |table| && HasKey(table[p], key) {
      assert HasKey(table'[p], key);
    }
    assert HasKey(table'[at], KeyOf(entry));
  }

  lemma InsertStores(table: seq<Slot>, entries: seq<string>, entry: string, probe: nat)
    requires Stores(table, entries) && probe < TABLE_SLOTS && Passed(table, KeyOf(entry), probe)
    requires !table[Place(HashKey(KeyOf(entry)), probe)].occupied
    ensures Stores(Put(table, entry, Place(HashKey(KeyOf(entry)), probe)), entries + [entry])
  {
    hide HashFrom, Home, KeyOf, Place, HashKey, Settled, TableValid, Passed, Absent;
    var at := Place(HashKey(KeyOf(entry)), probe);
    FreeMeansAbsent(table, KeyOf(entry), probe);
    InsertSettles(table, entry, probe);
    PutFinds(table, entry, at, KeyOf(entry));
    forall i | 0 <= i < |entries|
      ensures KeyOf(entries[i]) != KeyOf(entry) && !Absent(Put(table, entry, at), KeyOf(entries[i]))
    {
      PutFinds(table, entry, at, KeyOf(entries[i]));
    }
  }

  ghost predicate NoneSeen(table: seq<Slot>) {
    forall p :: 0 <= p < |table| ==> !table[p].seen
  }

  /** A key that comes twice among the entries. */
  lemma SameKeyTwice(env: seq<string>, sel: Selection, i: nat, entry: string)
    requires i < |env| && Chosen(sel, env[i]) && entry in Selected(env[..i], sel) && KeyOf(entry) == KeyOf(env[i])
    ensures !DistinctKeys(Selected(env, sel))
  {
    var before := Selected(env[..i], sel);
    SelectedStep(env, sel, i);
    SelectedPrefix(env, sel, i + 1);
    var k :| 0 <= k < |before| && before[k] == entry;
    assert Selected(env, sel)[k] == entry && Selected(env, sel)[|before|] == env[i];
  }

  /** Enter the selected recorded entries; fails when a key is given twice. */
  method FillTable(table: array<Slot>, expected: seq<string>, sel: Selection) returns (ok: bool, count: nat)
    requires |expected| <= MAX_INPUTS && table.Length == TABLE_SLOTS
    requires forall p :: 0 <= p < TABLE_SLOTS ==> table[p] == FREE
    modifies table
    ensures ok ==>
              && Stores(table[..], Selected(expected, sel)) && NoneSeen(table[..])
              && count == |Selected(expected, sel)|
    ensures ok ==> WellFormed(expected, sel) && AllAssign(expected) && DistinctKeys(Selected(expected, sel))
    ensures !ok ==> !(WellFormed(expected, sel) && AllAssign(expected) && DistinctKeys(Selected(expected, sel)))
  {
    hide Selected, KeyOf, GoodEntries, AllAssign, HashFrom, Home, Place, HashKey, TableValid, Passed, Stores, Absent;
    EmptyStores(table[..]);
    NothingRead(expected, sel);
    count := 0;
    for i := 0 to |expected|
      invariant Stores(table[..], Selected(expected[..i], sel)) && NoneSeen(table[..])
      invariant count == |Selected(expected[..i], sel)| <= MAX_SELECTED
      invariant GoodEntries(expected[..i], sel) && AllAssign(expected[..i])
    {
      var entry := expected[i];
      EntryRead(expected, sel, i);
      if '=' !in entry {
        return false, count;
      }
      if Chosen(sel, entry) {
        var key := KeyOf(entry);
        if |key| == 0 || |key| >= 128 || count >= MAX_SELECTED {
          return false, count;
        }
        StoredFits(table[..], Selected(expected[..i], sel));
        var slot := FindSlot(table, key, HashKey(key));
        if slot.None? || table[slot.value].occupied {
          StoredKnown(table[..], Selected(expected[..i], sel), slot.value);
          SameKeyTwice(expected, sel, i, table[slot.value].entry);
          return false, count;
        }
        ghost var probe: nat :| probe < TABLE_SLOTS && Place(HashKey(key), probe) == slot.value &&
                                Passed(table[..], key, probe);
        InsertStores(table[..], Selected(expected[..i], sel), entry, probe);
        ghost var before := table[..];
        table[slot.value] := Slot(entry, HashKey(key), true, false);
        assert table[..] == Put(before, entry, slot.value);
        count := count + 1;
      }
    }
    assert expected[..|expected|] == expected;
    ok := true;
  }

  lemma EmptyStores(table: seq<Slot>)
    requires |table| == TABLE_SLOTS && forall p :: 0 <= p < TABLE_SLOTS ==> table[p] == FREE
    ensures Stores(table, []) && NoneSeen(table)
  {
    assert Occupied(table) == {};
  }

  lemma NothingRead(env: seq<string>, sel: Selection)
    ensures Selected(env[..0], sel) == [] && GoodEntries(env[..0], sel) && AllAssign(env[..0])
  {
  }

  /** A table of few entries is valid and has room. */
  lemma StoredFits(table: seq<Slot>, entries: seq<string>)
    requires Stores(table, entries) && |entries| <= MAX_SELECTED
    ensures TableValid(table) && exists p :: 0 <= p < TABLE_SLOTS && !table[p].occupied
  {
    NeverFull(table);
  }

  lemma StoredKnown(table: seq<Slot>, entries: seq<string>, p: nat)
    requires Stores(table, entries) && p < TABLE_SLOTS && table[p].occupied
    ensures table[p].entry in entries
  {
  }

  // ---- Ticking off the present entries

  /** The seen slots are those of the entries met so far, each met once. */
  ghost predicate Ticked(table: seq<Slot>, met: seq<string>) {
    && DistinctKeys(met)
    && (forall p :: 0 <= p < |table| ==> (table[p].seen <==> table[p].occupied && table[p].entry in met))
    && (forall k :: 0 <= k < |met| ==> Held(table, met[k]))
  }

  ghost predicate Held(table: seq<Slot>, entry: string) {
    exists p :: 0 <= p < |table| && table[p].occupied && table[p].entry == entry
  }

  function Tick(table: seq<Slot>, p: nat): seq<Slot>
    requires p < |table|
  {
    table[p := table[p].(seen := true)]
  }

  /** Ticking off changes nothing the lookup depends on. */
  lemma TickKeeps(table: seq<Slot>, entries: seq<string>, p: nat)
    requires Stores(table, entries) && p < |table|
    ensures Stores(Tick(table, p), entries)
  {
    hide HashFrom, Home, KeyOf, Place, HashKey;
    var table' := Tick(table, p);
    assert Occupied(table') == Occupied(table);
    forall q | 0 <= q < TABLE_SLOTS
      ensures Settled(table', q)
    {
      assert Settled(table, q);
      if table[q].occupied {
        var k := KeyOf(table[q].entry);
        var d: nat :| d < TABLE_SLOTS && Place(HashKey(k), d) == q && Passed(table, k, d);
        assert Passed(table', k, d);
      }
    }
    forall i | 0 <= i < |entries|
      ensures !Absent(table', KeyOf(entries[i]))
    {
      var q :| 0 <= q < |table| && HasKey(table[q], KeyOf(entries[i]));
      assert HasKey(table'[q], KeyOf(entries[i]));
    }
  }

  lemma TickAdds(table: seq<Slot>, entries: seq<string>, met: seq<string>, p: nat)
    requires Stores(table, entries) && Ticked(table, met) && p < |table| && table[p].occupied && !table[p].seen
    ensures Ticked(Tick(table, p), met + [table[p].entry])
  {
    hide HashFrom, Home, KeyOf, Place, HashKey, Settled;
    var entry, table' := table[p].entry, Tick(table, p);
    forall k | 0 <= k < |met|
      ensures KeyOf(met[k]) != KeyOf(entry) && Held(table', met[k])
    {
      var q :| 0 <= q < |table| && table[q].occupied && table[q].entry == met[k];
      assert table'[q].entry == met[k];
      KeyOfOneEntry(entries, met[k], entry);
    }
    assert table'[p].entry == entry;
    forall q | 0 <= q < |table| && table[q].occupied && table[q].entry == entry
      ensures q == p
    {
      KeyInOneSlot(table, p, q);
    }
  }

  /** A key has one slot. */
  lemma KeyInOneSlot(table: seq<Slot>, p: nat, q: nat)
    requires TableValid(table) && p < TABLE_SLOTS && q < TABLE_SLOTS && table[p].occupied && table[q].occupied
    requires KeyOf(table[p].entry) == KeyOf(table[q].entry)
    ensures p == q
  {
    hide HashFrom, Home, KeyOf, Place, HashKey;
    var key := KeyOf(table[p].entry);
    assert Settled(table, p) && Settled(table, q);
    var d: nat :| d < TABLE_SLOTS && Place(HashKey(key), d) == p && Passed(table, key, d);
    var e: nat :| e < TABLE_SLOTS && Place(HashKey(key), e) == q && Passed(table, key, e);
    assert d <= e && e <= d;
  }

  lemma KeyOfOneEntry(entries: seq<string>, a: string, b: string)
    requires DistinctKeys(entries) && a in entries && b in entries && a != b
    ensures KeyOf(a) != KeyOf(b)
  {
    hide KeyOf;
    var i :| 0 <= i < |entries| && entries[i] == a;
    var j :| 0 <= j < |entries| && entries[j] == b;
  }

  /** Why a present entry without its like in the table ends the comparison. */
  lemma Unmatched(expected: seq<string>, actual: seq<string>, sel: Selection, i: nat)
    requires DistinctKeys(Selected(expected, sel)) && i < |actual| && Chosen(sel, actual[i])
    requires (forall e :: e in Selected(expected, sel) ==> KeyOf(e) != KeyOf(actual[i])) ||
             (exists e :: e in Selected(expected, sel) && KeyOf(e) == KeyOf(actual[i]) && e != actual[i]) ||
             actual[i] in Selected(actual[..i], sel)
    ensures multiset(Selected(expected, sel)) != multiset(Selected(actual, sel))
  {
    hide Selected, KeyOf, Chosen;
    var e, a, before := Selected(expected, sel), Selected(actual, sel), Selected(actual[..i], sel);
    var x := actual[i];
    EntryRead(actual, sel, i);
    SelectedPrefix(actual, sel, i + 1);
    assert a[|before|] == x;
    Appears(a, |before|);
    OnceEach(e);
    if x in e {
      OnlyWithKey(e, x);
      if x in before {
        TwiceCounts(a, before, x);
      }
    } else {
      assert multiset(e)[x] == 0;
    }
  }

  lemma Appears(a: seq<string>, k: nat)
    requires k < |a|
    ensures multiset(a)[a[k]] >= 1
  {
    assert a[k] in multiset(a);
  }

  lemma OnlyWithKey(entries: seq<string>, x: string)
    requires DistinctKeys(entries) && x in entries
    ensures forall e :: e in entries && KeyOf(e) == KeyOf(x) ==> e == x
  {
    hide KeyOf;
    forall e | e in entries && KeyOf(e) == KeyOf(x)
      ensures e == x
    {
      if e != x {
        KeyOfOneEntry(entries, e, x);
      }
    }
  }

  lemma TwiceCounts(a: seq<string>, before: seq<string>, entry: string)
    requires entry in before && |before| < |a| && before <= a && a[|before|] == entry
    ensures multiset(a)[entry] >= 2
  {
    assert a == before + [entry] + a[|before| + 1..];
  }

  /** Entries with distinct keys are distinct. */
  lemma {:induction false} OnceEach(entries: seq<string>)
    requires DistinctKeys(entries)
    ensures forall e :: multiset(entries)[e] <= 1
  {
    if entries != [] {
      var last := |entries| - 1;
      OnceEach(entries[..last]);
      assert entries == entries[..last] + [entries[last]];
      assert entries[last] !in entries[..last];
    }
  }

  /** As many entries with distinct keys, all among the others, are the others in
      some order. */
  lemma SameEntries(a: seq<string>, b: seq<string>)
    requires DistinctKeys(a) && |a| == |b| && forall k :: 0 <= k < |a| ==> a[k] in b
    ensures multiset(a) == multiset(b)
  {
    OnceEach(a);
    var ma, mb := multiset(a), multiset(b);
    forall e | e in ma
      ensures ma[e] <= mb[e]
    {
      assert e in a && e in b && e in mb;
    }
    assert mb == ma + (mb - ma);
    assert |mb - ma| == 0;
    assert mb - ma == multiset{};
  }

  /** Tick off each selected present entry; fails at one that the table does not
      hold, or holds already ticked. */
  method TickAll(table: array<Slot>, actual: seq<string>, sel: Selection, ghost expected: seq<string>)
    returns (ok: bool, count: nat)
    requires table.Length == TABLE_SLOTS && Stores(table[..], Selected(expected, sel)) && NoneSeen(table[..])
    requires |Selected(expected, sel)| <= MAX_SELECTED
    modifies table
    ensures ok ==> |actual| <= MAX_INPUTS && GoodEntries(actual, sel) && DistinctKeys(Selected(actual, sel)) &&
                   count == |Selected(actual, sel)| &&
                   forall k :: 0 <= k < count ==> Selected(actual, sel)[k] in Selected(expected, sel)
    ensures !ok ==> !(WellFormed(actual, sel) && multiset(Selected(expected, sel)) == multiset(Selected(actual, sel)))
  {
    hide Selected, KeyOf, GoodEntries, HashFrom, Home, Place, HashKey, TableValid, Passed, Stores, Ticked;
    NothingRead(actual, sel);
    NothingTicked(table[..]);
    count := 0;
    for i := 0 to |actual|
      invariant i <= MAX_INPUTS && GoodEntries(actual[..i], sel)
      invariant Stores(table[..], Selected(expected, sel)) && Ticked(table[..], Selected(actual[..i], sel))
      invariant count == |Selected(actual[..i], sel)|
    {
      if i >= MAX_INPUTS {
        return false, count;
      }
      var entry := actual[i];
      EntryRead(actual, sel, i);
      if Chosen(sel, entry) {
        var key := KeyOf(entry);
        if '=' !in entry || |key| == 0 || |key| >= 128 {
          return false, count;
        }
        StoredFits(table[..], Selected(expected, sel));
        var slot := FindSlot(table, key, HashKey(key));
        if slot.None? || !table[slot.value].occupied {
          KeyMissing(table[..], Selected(expected, sel), key);
          Unmatched(expected, actual, sel, i);
          return false, count;
        }
        StoredKnown(table[..], Selected(expected, sel), slot.value);
        if table[slot.value].seen || table[slot.value].entry != entry {
          SeenWasMet(table[..], Selected(actual[..i], sel), slot.value);
          Unmatched(expected, actual, sel, i);
          return false, count;
        }
        TickKeeps(table[..], Selected(expected, sel), slot.value);
        TickAdds(table[..], Selected(expected, sel), Selected(actual[..i], sel), slot.value);
        ghost var before := table[..];
        table[slot.value] := table[slot.value].(seen := true);
        assert table[..] == Tick(before, slot.value);
        count := count + 1;
      }
    }
    assert actual[..|actual|] == actual;
    TickedWithin(table[..], Selected(expected, sel), Selected(actual, sel));
    ok := true;
  }

  lemma NothingTicked(table: seq<Slot>)
    requires NoneSeen(table)
    ensures Ticked(table, [])
  {
  }

  lemma KeyMissing(table: seq<Slot>, entries: seq<string>, key: string)
    requires Stores(table, entries)
    requires exists probe: nat :: probe < TABLE_SLOTS && Passed(table, key, probe) &&
                                  !table[Place(HashKey(key), probe)].occupied
    ensures forall e :: e in entries ==> KeyOf(e) != key
  {
    hide KeyOf, HashKey, Place, Passed, TableValid;
    var probe: nat :| probe < TABLE_SLOTS && Passed(table, key, probe) && !table[Place(HashKey(key), probe)].occupied;
    FreeMeansAbsent(table, key, probe);
    forall e | e in entries
      ensures KeyOf(e) != key
    {
      var i :| 0 <= i < |entries| && entries[i] == e;
      assert !Absent(table, KeyOf(entries[i]));
    }
  }

  lemma SeenWasMet(table: seq<Slot>, met: seq<string>, p: nat)
    requires Ticked(table, met) && p < |table| && table[p].occupied
    ensures table[p].seen ==> table[p].entry in met
  {
  }

  lemma TickedWithin(table: seq<Slot>, entries: seq<string>, met: seq<string>)
    requires Stores(table, entries) && Ticked(table, met)
    ensures DistinctKeys(met) && forall k :: 0 <= k < |met| ==> met[k] in entries
  {
    hide TableValid;
    forall k | 0 <= k < |met|
      ensures met[k] in entries
    {
      assert Held(table, met[k]);
    }
  }

  // ---- The comparison

  /** Is the recorded environment compatible with the present one? Exactly when
      both are well formed and they agree. */
  method Compatible(expected: seq<string>, actual: seq<string>, sel: Selection) returns (ok: bool)
    ensures ok <==> WellFormed(expected, sel) && AllAssign(expected) && WellFormed(actual, sel) &&
                    Agree(expected, actual, sel)
    ensures forall e, a :: Writes(e, expected) && Writes(a, actual) ==> (ok <==> Accepts(e, a, sel))
  {
    forall e, a | Writes(e, expected) && Writes(a, actual)
      ensures (WellFormed(expected, sel) && AllAssign(expected) && WellFormed(actual, sel) &&
               Agree(expected, actual, sel)) <==> Accepts(e, a, sel)
    {
      AgreementIs(expected, actual, e, a, sel);
    }
    hide Selected, GoodEntries, AllAssign, DistinctKeys, Stores, NoneSeen, Writes, Accepts;
    var equal := SequencesEqual(expected, actual, sel);
    if equal.None? {
      return false;
    }
    if equal.value {
      return true;
    }
    if |expected| > MAX_INPUTS {
      return false;
    }
    var table := new Slot[TABLE_SLOTS](_ => FREE);
    var filled, selected := FillTable(table, expected, sel);
    if !filled {
      return false;
    }
    var ticked, present := TickAll(table, actual, sel, expected);
    if !ticked {
      return false;
    }
    if present == selected {
      SameEntries(Selected(actual, sel), Selected(expected, sel));
    } else {
      SizesDiffer(Selected(expected, sel), Selected(actual, sel));
    }
    ok := present == selected;
  }

  lemma SizesDiffer(a: seq<string>, b: seq<string>)
    requires |a| != |b|
    ensures multiset(a) != multiset(b)
  {
    assert |multiset(a)| == |a| && |multiset(b)| == |b|;
  }
}
