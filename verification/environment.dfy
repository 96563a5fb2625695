/** Turning the launcher's `"KEY=value"` environment entries into its
    properties (`RemoteCommandLauncher.parseEnvironment`). */
module Environment {
  import opened Wrappers
  import opened Strings

  const EqualsSign: char := '='

  type Properties = map<string, string>

  /** The properties the launcher is left with, and the index of the entry
      whose split threw, when one did. Entries before it are already stored. */
  datatype EnvOutcome = EnvOutcome(properties: Properties, thrownAt: Option<nat>)

  /** The text before the first `=`; the whole entry when there is none. */
  function KeyOf(entry: string): string
  {
    entry[..IndexOf(entry, EqualsSign)]
  }

  /** The text after the first `=`, which may itself hold `=`; empty when there is none. */
  function ValueOf(entry: string): string
  {
    var pos := IndexOf(entry, EqualsSign);
    if pos < |entry| then entry[pos + 1..] else ""
  }

  /** Splitting one entry: `indexOf`, a missing `=` read as the end of the
      entry, then two `substring` calls; the second is out of range exactly when
      there is no `=`. */
  function SplitEntry(entry: string): (r: Result<(string, string), Fault>)
    ensures r.Success? <==> EqualsSign in entry
    ensures r.Success? ==>
              && EqualsSign !in r.value.0
              && r.value.0 + [EqualsSign] + r.value.1 == entry
              && r.value == (KeyOf(entry), ValueOf(entry))
  {
    var pos := IndexOf(entry, EqualsSign);
    if pos + 1 > |entry| then Failure(IndexOutOfBounds)
    else
      assert entry == entry[..pos] + [EqualsSign] + entry[pos + 1..];
      Success((entry[..pos], entry[pos + 1..]))
  }

  /** Entry `i` is the last one with its key. */
  ghost predicate IsLastOfKey(entries: seq<string>, i: nat)
    requires i < |entries|
  {
    forall j :: i < j < |entries| ==> KeyOf(entries[j]) != KeyOf(entries[i])
  }

  /** `m` holds exactly the keys of `entries`. */
  ghost predicate HoldsKeysOf(entries: seq<string>, m: Properties)
  {
    forall k :: k in m <==> exists i :: 0 <= i < |entries| && KeyOf(entries[i]) == k
  }

  /** Every key maps to the value of the last entry with that key. */
  ghost predicate HoldsLastValues(entries: seq<string>, m: Properties)
  {
    forall i :: 0 <= i < |entries| && IsLastOfKey(entries, i) ==>
      KeyOf(entries[i]) in m && m[KeyOf(entries[i])] == ValueOf(entries[i])
  }

  /** `m` holds exactly the keys of `entries`, each mapped to the value of the
      last entry with that key. */
  ghost predicate LastWriterWins(entries: seq<string>, m: Properties)
  {
    HoldsKeysOf(entries, m) && HoldsLastValues(entries, m)
  }

  lemma HoldsKeysOfStep(all: seq<string>, m: Properties)
    requires |all| > 0
    requires HoldsKeysOf(all[..|all| - 1], m)
    ensures HoldsKeysOf(all, m[KeyOf(all[|all| - 1]) := ValueOf(all[|all| - 1])])
  {
    var entries := all[..|all| - 1];
    var entry := all[|all| - 1];
    var m' := m[KeyOf(entry) := ValueOf(entry)];
    forall k
      ensures k in m' <==> exists i :: 0 <= i < |all| && KeyOf(all[i]) == k
    {
      if k in m && k != KeyOf(entry) {
        var i :| 0 <= i < |entries| && KeyOf(entries[i]) == k;
        assert all[i] == entries[i];
      }
      if exists i :: 0 <= i < |all| && KeyOf(all[i]) == k {
        var i :| 0 <= i < |all| && KeyOf(all[i]) == k;
        if i < |entries| {
          assert all[i] == entries[i];
        }
      }
    }
  }

  lemma HoldsLastValuesStep(all: seq<string>, m: Properties)
    requires |all| > 0
    requires HoldsLastValues(all[..|all| - 1], m)
    ensures HoldsLastValues(all, m[KeyOf(all[|all| - 1]) := ValueOf(all[|all| - 1])])
  {
    var entries := all[..|all| - 1];
    var entry := all[|all| - 1];
    var m' := m[KeyOf(entry) := ValueOf(entry)];
    forall i | 0 <= i < |all| && IsLastOfKey(all, i)
      ensures KeyOf(all[i]) in m' && m'[KeyOf(all[i])] == ValueOf(all[i])
    {
      if i < |entries| {
        assert all[i] == entries[i];
        assert KeyOf(all[|entries|]) != KeyOf(all[i]);
        assert IsLastOfKey(entries, i) by {
          forall j | i < j < |entries|
            ensures KeyOf(entries[j]) != KeyOf(entries[i])
          {
            assert all[j] == entries[j];
          }
        }
      }
    }
  }

  /** Storing one more entry keeps the last-writer-wins reading. */
  lemma LastWriterWinsStep(all: seq<string>, m: Properties)
    requires |all| > 0
    requires LastWriterWins(all[..|all| - 1], m)
    ensures LastWriterWins(all, m[KeyOf(all[|all| - 1]) := ValueOf(all[|all| - 1])])
  {
    HoldsKeysOfStep(all, m);
    HoldsLastValuesStep(all, m);
  }

  /** Every entry holds a `=`. */
  predicate AllHaveEquals(entries: seq<string>) {
    forall i :: 0 <= i < |entries| ==> EqualsSign in entries[i]
  }

  /** Entry `k` is the first one without `=`. */
  predicate FirstBare(entries: seq<string>, k: nat) {
    k < |entries| && EqualsSign !in entries[k] && AllHaveEquals(entries[..k])
  }

  lemma AllHaveEqualsExtend(entries: seq<string>)
    requires |entries| > 0
    ensures AllHaveEquals(entries) <==>
              AllHaveEquals(entries[..|entries| - 1]) && EqualsSign in entries[|entries| - 1]
  {
    var n := |entries| - 1;
    assert forall i :: 0 <= i < n ==> entries[..n][i] == entries[i];
  }

  lemma FirstBareExtend(entries: seq<string>, k: nat)
    requires |entries| > 0 && FirstBare(entries[..|entries| - 1], k)
    ensures FirstBare(entries, k)
  {
    assert entries[..|entries| - 1][..k] == entries[..k];
  }

  /** The loop over `entries`, storing each split entry into the cleared
      properties until one throws. */
  function ParseEntries(entries: seq<string>): (out: EnvOutcome)
    ensures out.thrownAt.None? <==> AllHaveEquals(entries)
    ensures out.thrownAt.Some? ==> FirstBare(entries, out.thrownAt.value)
    decreases |entries|
  {
    if |entries| == 0 then EnvOutcome(map[], None)
    else
      var n := |entries| - 1;
      var before := ParseEntries(entries[..n]);
      AllHaveEqualsExtend(entries);
      if before.thrownAt.Some? then
        FirstBareExtend(entries, before.thrownAt.value);
        before
      else
        assert entries[..n][..n] == entries[..n];
        match SplitEntry(entries[n])
        case Failure(_) => EnvOutcome(before.properties, Some(n))
        case Success((key, value)) => EnvOutcome(before.properties[key := value], None)
  }

  /** `parseEnvironment`: a null array leaves the properties alone; otherwise
      they are cleared and refilled entry by entry until an entry without `=`
      throws. */
  function ParseEnvironment(env: Option<seq<string>>, properties: Properties): (out: EnvOutcome)
    ensures env.None? ==> out == EnvOutcome(properties, None)
    ensures out.thrownAt.None? <==> env.None? || AllHaveEquals(env.value)
    ensures out.thrownAt.Some? ==> env.Some? && FirstBare(env.value, out.thrownAt.value)
  {
    if env.None? then EnvOutcome(properties, None) else ParseEntries(env.value)
  }

  // ---------------------------------------------------------------------------
  // The evidently intended handling of an entry without `=`

  /** The loop with the guard for a missing `=` taking effect: an entry without
      `=` maps the whole entry to the empty value. */
  function ParseEntriesIntended(entries: seq<string>): Properties
    decreases |entries|
  {
    if |entries| == 0 then map[]
    else
      var n := |entries| - 1;
      ParseEntriesIntended(entries[..n])[KeyOf(entries[n]) := ValueOf(entries[n])]
  }

  function ParseEnvironmentIntended(env: Option<seq<string>>, properties: Properties): Properties
  {
    if env.None? then properties else ParseEntriesIntended(env.value)
  }

  /** The intended parse keeps, for every key, the value of its last entry. */
  lemma {:induction false} ParseEntriesIntendedLastWriterWins(entries: seq<string>)
    ensures LastWriterWins(entries, ParseEntriesIntended(entries))
    decreases |entries|
  {
    if |entries| > 0 {
      ParseEntriesIntendedLastWriterWins(entries[..|entries| - 1]);
      LastWriterWinsStep(entries, ParseEntriesIntended(entries[..|entries| - 1]));
    }
  }

  lemma ParseEnvironmentIntendedLastWriterWins(env: Option<seq<string>>, properties: Properties)
    ensures env.None? ==> ParseEnvironmentIntended(env, properties) == properties
    ensures env.Some? ==> LastWriterWins(env.value, ParseEnvironmentIntended(env, properties))
  {
    if env.Some? {
      ParseEntriesIntendedLastWriterWins(env.value);
    }
  }

  /** One step of the loop as written, in terms of the entries before the last. */
  lemma ParseEntriesStep(entries: seq<string>)
    requires |entries| > 0
    ensures var n := |entries| - 1;
            var before := ParseEntries(entries[..n]);
            var e := entries[n];
            ParseEntries(entries) ==
              if before.thrownAt.Some? then before
              else if EqualsSign in e then EnvOutcome(before.properties[KeyOf(e) := ValueOf(e)], None)
              else EnvOutcome(before.properties, Some(n))
  {
    var e := entries[|entries| - 1];
    if EqualsSign in e {
      assert SplitEntry(e) == Success((KeyOf(e), ValueOf(e)));
    }
  }

  /** The code as written stores the entries before the first one without `=`
      exactly as the intended version would store them. */
  lemma {:induction false} ParseEntriesAgree(entries: seq<string>)
    ensures var out := ParseEntries(entries);
            && (out.thrownAt.None? ==> out.properties == ParseEntriesIntended(entries))
            && (out.thrownAt.Some? ==> out.properties == ParseEntriesIntended(entries[..out.thrownAt.value]))
    decreases |entries|
  {
    if |entries| > 0 {
      var n := |entries| - 1;
      ParseEntriesAgree(entries[..n]);
      ParseEntriesStep(entries);
      var before := ParseEntries(entries[..n]);
      if before.thrownAt.Some? {
        assert entries[..n][..before.thrownAt.value] == entries[..before.thrownAt.value];
      }
    }
  }

  /** As written, the properties hold exactly the keys of the entries before
      the first one without `=` (all entries when there is none), each with the
      value of its last such entry; a null array leaves them alone. */
  lemma ParseEnvironmentLastWriterWins(env: Option<seq<string>>, properties: Properties)
    ensures var out := ParseEnvironment(env, properties);
            && (env.None? ==> out.properties == properties)
            && (env.Some? && out.thrownAt.None? ==> LastWriterWins(env.value, out.properties))
            && (env.Some? && out.thrownAt.Some? ==>
                  LastWriterWins(env.value[..out.thrownAt.value], out.properties))
  {
    if env.Some? {
      ParseEntriesAgree(env.value);
      var out := ParseEntries(env.value);
      if out.thrownAt.Some? {
        ParseEntriesIntendedLastWriterWins(env.value[..out.thrownAt.value]);
      } else {
        ParseEntriesIntendedLastWriterWins(env.value);
      }
    }
  }

  /** Wherever the code as written does not throw, it agrees with the intended version. */
  lemma ParseEnvironmentAgrees(env: Option<seq<string>>, properties: Properties)
    requires ParseEnvironment(env, properties).thrownAt.None?
    ensures ParseEnvironment(env, properties).properties == ParseEnvironmentIntended(env, properties)
  {
    if env.Some? {
      ParseEntriesAgree(env.value);
    }
  }

  lemma SetEntry()
    ensures SplitEntry("A=1") == Success(("A", "1"))
  {
    var e := "A=1";
    IndexOfAt(e, EqualsSign, 1);
    assert e[..1] == "A";
    assert e[2..] == "1";
  }

  lemma BareEntry()
    ensures KeyOf("B") == "B" && ValueOf("B") == ""
    ensures SplitEntry("B").Failure?
  {
    var d := "B";
    assert EqualsSign !in d;
    assert d[..1] == d;
  }

  /** As written: `["A=1", "B"]` stores `A` and then throws on `B`. */
  lemma BareNameThrows(properties: Properties)
    ensures ParseEnvironment(Some(["A=1", "B"]), properties) == EnvOutcome(map["A" := "1"], Some(1))
  {
    SetEntry();
    BareEntry();
    var entries := ["A=1", "B"];
    assert entries[..1] == ["A=1"];
    assert ["A=1"][..0] == [];
    assert ParseEntries(["A=1"]) == EnvOutcome(map["A" := "1"], None);
  }

  /** Intended: the same entries give `A` its value and `B` the empty one. */
  lemma BareNameIntended(properties: Properties)
    ensures ParseEnvironmentIntended(Some(["A=1", "B"]), properties) == map["A" := "1", "B" := ""]
  {
    SetEntry();
    BareEntry();
    var entries := ["A=1", "B"];
    assert entries[..1] == ["A=1"];
    assert ["A=1"][..0] == [];
    assert ParseEntriesIntended(["A=1"]) == map["A" := "1"];
  }
}
