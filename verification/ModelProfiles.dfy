/** Model profiles of `src/config.js`: normalization, the order-sensitive merge of the
    configuration layers, and the most-specific, latest-wins lookup. */
module ModelProfiles {
  import opened Wrappers
  import opened Sequences
  import opened CaseFold
  import Glob

  const SLASH: CodePoint := 47

  datatype RawProfile =
    | NotRecord
    | Record(rotationContextRatio: Numeric, hardLimitContextRatio: Numeric, rotationTurns: Numeric)

  datatype RawEntry = RawEntry(pattern: Text, profile: RawProfile)

  datatype Profile = Profile(
    rotationContextRatio: Option<real>,
    hardLimitContextRatio: Option<real>,
    rotationTurns: Option<real>)

  const NO_POLICY := Profile(None, None, None)

  /** An own property of a JavaScript object. Patterns contain `/`, so they are never array
      indices and an object lists them in insertion order: it is a sequence of entries. */
  datatype Entry = Entry(pattern: Text, profile: Profile)

  // ---------------------------------------------------------------------------------------
  // Normalization
  // ---------------------------------------------------------------------------------------

  const MAX_SAFE_INTEGER := 9007199254740991.0

  function PositiveRatio(value: Numeric): Option<real> {
    if value.Finite? && 0.0 < value.value <= 1.0 then Some(value.value) else None
  }

  function PositiveInteger(value: Numeric): Option<real> {
    if value.Finite? && 0.0 < value.value <= MAX_SAFE_INTEGER && value.value.Floor as real == value.value
    then Some(value.value)
    else None
  }

  function Normalize(models: seq<RawEntry>): seq<Entry> {
    if models == [] then []
    else
      (if Qualifies(models[0]) then [NormalizedEntry(models[0])] else []) + Normalize(models[1..])
  }

  function NormalizedEntry(entry: RawEntry): Entry
    requires Qualifies(entry)
  {
    Entry(entry.pattern, Profile(PositiveRatio(entry.profile.rotationContextRatio),
                                 PositiveRatio(entry.profile.hardLimitContextRatio),
                                 PositiveInteger(entry.profile.rotationTurns)))
  }

  /** An entry with a slash in its pattern and a record behind it. */
  predicate Qualifies(entry: RawEntry) {
    SLASH in entry.pattern && entry.profile.Record?
  }

  method NormalizeModelProfiles(models: seq<RawEntry>) returns (profiles: seq<Entry>)
    ensures profiles == Normalize(models)
  {
    profiles := [];
    for i := 0 to |models|
      invariant profiles == Normalize(models[..i])
    {
      NormalizeSnoc(models, i);
      if !Qualifies(models[i]) {
        continue;
      }
      var profile := NormalizeFields(models[i].profile);
      profiles := profiles + [Entry(models[i].pattern, profile)];
    }
    All(models);
  }

  method NormalizeFields(raw: RawProfile) returns (profile: Profile)
    requires raw.Record?
    ensures profile == Profile(PositiveRatio(raw.rotationContextRatio), PositiveRatio(raw.hardLimitContextRatio),
                               PositiveInteger(raw.rotationTurns))
  {
    profile := NO_POLICY;
    if PositiveRatio(raw.rotationContextRatio).Some? {
      profile := profile.(rotationContextRatio := Some(raw.rotationContextRatio.value));
    }
    if PositiveRatio(raw.hardLimitContextRatio).Some? {
      profile := profile.(hardLimitContextRatio := Some(raw.hardLimitContextRatio.value));
    }
    if PositiveInteger(raw.rotationTurns).Some? {
      profile := profile.(rotationTurns := Some(raw.rotationTurns.value));
    }
  }

  lemma {:induction false} NormalizeConcat(a: seq<RawEntry>, b: seq<RawEntry>)
    ensures Normalize(a + b) == Normalize(a) + Normalize(b)
  {
    if a == [] {
      Nothing(b);
      Nothing(Normalize(b));
    } else {
      assert (a + b)[1..] == a[1..] + b;
      NormalizeConcat(a[1..], b);
      Associate(if Qualifies(a[0]) then [NormalizedEntry(a[0])] else [], Normalize(a[1..]), Normalize(b));
    }
  }

  lemma NormalizeSnoc(models: seq<RawEntry>, i: nat)
    requires i < |models|
    ensures Normalize(models[..i + 1])
         == if Qualifies(models[i]) then Normalize(models[..i]) + [NormalizedEntry(models[i])] else Normalize(models[..i])
  {
    Grown(models, i);
    NormalizeConcat(models[..i], [models[i]]);
    assert [models[i]][1..] == [];
    Nothing(Normalize(models[..i]));
  }

  predicate UsableRatio(value: real) {
    0.0 < value <= 1.0
  }

  predicate UsableTurns(value: real) {
    0.0 < value <= MAX_SAFE_INTEGER && value == value.Floor as real
  }

  /** A field keeps a usable number, and nothing else. */
  ghost predicate Keeps(field: Option<real>, raw: Numeric, usable: real -> bool) {
    && (field.Some? <==> raw.Finite? && usable(raw.value))
    && (field.Some? ==> field.value == raw.value)
  }

  ghost predicate KeptAs(raw: RawEntry, entry: Entry)
    requires Qualifies(raw)
  {
    && entry.pattern == raw.pattern
    && Keeps(entry.profile.rotationContextRatio, raw.profile.rotationContextRatio, UsableRatio)
    && Keeps(entry.profile.hardLimitContextRatio, raw.profile.hardLimitContextRatio, UsableRatio)
    && Keeps(entry.profile.rotationTurns, raw.profile.rotationTurns, UsableTurns)
  }

  /** The entries are the qualifying raw ones, in order and none left out. */
  ghost predicate Selects(models: seq<RawEntry>, entries: seq<Entry>) {
    if models == [] then entries == []
    else if Qualifies(models[0]) then entries != [] && KeptAs(models[0], entries[0]) && Selects(models[1..], entries[1..])
    else Selects(models[1..], entries)
  }

  /** Normalizing keeps every qualifying entry, even without a usable field, with its usable fields and no
      others: ratios above zero and at most one, and positive safe integers. */
  lemma {:induction false} NormalizeKeeps(models: seq<RawEntry>)
    ensures Selects(models, Normalize(models))
  {
    if models != [] {
      NormalizeKeeps(models[1..]);
      Nothing(Normalize(models[1..]));
      if Qualifies(models[0]) {
        assert Normalize(models)[1..] == Normalize(models[1..]);
      }
    }
  }

  // ---------------------------------------------------------------------------------------
  // One merge step, as the code performs it
  // ---------------------------------------------------------------------------------------

  function OrElse<T>(higher: Option<T>, lower: Option<T>): Option<T> {
    if higher.Some? then higher else lower
  }

  /** `{ ...lower, ...higher }` */
  function Overlay(lower: Profile, higher: Profile): Profile {
    Profile(OrElse(higher.rotationContextRatio, lower.rotationContextRatio),
            OrElse(higher.hardLimitContextRatio, lower.hardLimitContextRatio),
            OrElse(higher.rotationTurns, lower.rotationTurns))
  }

  /** Position of the first entry spelled like `identity` up to case, or the length. */
  function FirstWithIdentity(lower: Text -> Text, entries: seq<Entry>, identity: Text): (i: nat)
    ensures i <= |entries|
    ensures i < |entries| ==> lower(entries[i].pattern) == identity
    ensures forall j :: 0 <= j < i ==> lower(entries[j].pattern) != identity
  {
    if entries == [] || lower(entries[0].pattern) == identity then 0
    else 1 + FirstWithIdentity(lower, entries[1..], identity)
  }

  /** `object[key] = value`: an existing key keeps its place, a new one is appended. */
  function Put(entries: seq<Entry>, entry: Entry): seq<Entry> {
    if entries == [] then [entry]
    else if entries[0].pattern == entry.pattern then [entry] + entries[1..]
    else [entries[0]] + Put(entries[1..], entry)
  }

  function MergeEntry(lower: Text -> Text, merged: seq<Entry>, entry: Entry): seq<Entry> {
    var i := FirstWithIdentity(lower, merged, lower(entry.pattern));
    if i == |merged| then
      if entry.profile == NO_POLICY then merged else Put(merged, Entry(entry.pattern, Overlay(NO_POLICY, entry.profile)))
    else
      Put(merged[..i] + merged[i + 1..], Entry(entry.pattern, Overlay(merged[i].profile, entry.profile)))
  }

  function MergeAll(lower: Text -> Text, merged: seq<Entry>, entries: seq<Entry>): seq<Entry> {
    if entries == [] then merged
    else MergeEntry(lower, MergeAll(lower, merged, entries[..|entries| - 1]), entries[|entries| - 1])
  }

  method MergeModelProfiles(lower: Text -> Text, lowerProfiles: seq<Entry>, higherProfiles: seq<Entry>)
    returns (merged: seq<Entry>)
    ensures merged == MergeAll(lower, lowerProfiles, higherProfiles)
  {
    merged := lowerProfiles;
    for index := 0 to |higherProfiles|
      invariant merged == MergeAll(lower, lowerProfiles, higherProfiles[..index])
    {
      var Entry(pattern, profile) := higherProfiles[index];
      var identity := lower(pattern);
      var previous := FirstWithIdentity(lower, merged, identity);
      assert higherProfiles[..index + 1][..index] == higherProfiles[..index];
      if previous == |merged| && profile == NO_POLICY {
        continue;
      }
      var previousProfile := NO_POLICY;
      if previous < |merged| {
        previousProfile := merged[previous].profile;
        merged := merged[..previous] + merged[previous + 1..];
      }
      merged := Put(merged, Entry(pattern, Overlay(previousProfile, profile)));
    }
    assert higherProfiles[..|higherProfiles|] == higherProfiles;
  }

  // ---------------------------------------------------------------------------------------
  // What the merged profiles are, stated without any merging
  // ---------------------------------------------------------------------------------------

  ghost predicate HasPolicy(lower: Text -> Text, declared: seq<Entry>, identity: Text) {
    exists i :: 0 <= i < |declared| && lower(declared[i].pattern) == identity && declared[i].profile != NO_POLICY
  }

  /** Position `i` holds the last declaration of its identity. */
  ghost predicate IsLast(lower: Text -> Text, declared: seq<Entry>, i: nat)
    requires i < |declared|
  {
    forall j :: i < j < |declared| ==> lower(declared[j].pattern) != lower(declared[i].pattern)
  }

  /** The last declaration of `identity` that gives the field a valid value. */
  ghost function LastValue<T>(lower: Text -> Text, declared: seq<Entry>, identity: Text, field: Profile -> Option<T>): Option<T> {
    if declared == [] then None
    else
      var last := declared[|declared| - 1];
      if lower(last.pattern) == identity && field(last.profile).Some? then field(last.profile)
      else LastValue(lower, declared[..|declared| - 1], identity, field)
  }

  ghost function LastFields(lower: Text -> Text, declared: seq<Entry>, identity: Text): Profile {
    Profile(LastValue(lower, declared, identity, (p: Profile) => p.rotationContextRatio),
            LastValue(lower, declared, identity, (p: Profile) => p.hardLimitContextRatio),
            LastValue(lower, declared, identity, (p: Profile) => p.rotationTurns))
  }

  /** One entry for each identity with a policy, spelled and placed by its last declaration,
      looking at the first `n` declarations only. */
  ghost function Survivors(lower: Text -> Text, declared: seq<Entry>, n: nat): seq<Entry>
    requires n <= |declared|
  {
    if n == 0 then []
    else
      var before := Survivors(lower, declared, n - 1);
      var pattern := declared[n - 1].pattern;
      if IsLast(lower, declared, n - 1) && HasPolicy(lower, declared, lower(pattern)) then
        before + [Entry(pattern, LastFields(lower, declared, lower(pattern)))]
      else before
  }

  ghost function Declared(lower: Text -> Text, declared: seq<Entry>): seq<Entry> {
    Survivors(lower, declared, |declared|)
  }

  ghost function Without(lower: Text -> Text, entries: seq<Entry>, identity: Text): seq<Entry> {
    if entries == [] then []
    else
      var before := Without(lower, entries[..|entries| - 1], identity);
      var last := entries[|entries| - 1];
      if lower(last.pattern) == identity then before else before + [last]
  }

  lemma LastFieldsSnoc(lower: Text -> Text, declared: seq<Entry>, entry: Entry, identity: Text)
    ensures LastFields(lower, declared + [entry], identity)
         == if lower(entry.pattern) == identity
            then Overlay(LastFields(lower, declared, identity), entry.profile)
            else LastFields(lower, declared, identity)
  {
    assert (declared + [entry])[..|declared|] == declared;
  }

  lemma {:induction false} NoPolicyNoFields(lower: Text -> Text, declared: seq<Entry>, identity: Text)
    requires !HasPolicy(lower, declared, identity)
    ensures LastFields(lower, declared, identity) == NO_POLICY
  {
    if declared != [] {
      var init, last := declared[..|declared| - 1], declared[|declared| - 1];
      assert declared == init + [last];
      forall i | 0 <= i < |init| && lower(init[i].pattern) == identity
        ensures init[i].profile == NO_POLICY
      {
        assert declared[i] == init[i];
      }
      NoPolicyNoFields(lower, init, identity);
      LastFieldsSnoc(lower, init, last, identity);
      assert declared[|declared| - 1] == last;
    }
  }

  /** A further declaration takes its identity out of the earlier survivors and leaves the
      others exactly as they were. */
  lemma {:induction false} SurvivorsSnoc(lower: Text -> Text, declared: seq<Entry>, entry: Entry, n: nat)
    requires n <= |declared|
    ensures Survivors(lower, declared + [entry], n)
         == Without(lower, Survivors(lower, declared, n), lower(entry.pattern))
  {
    if n > 0 {
      var extended := declared + [entry];
      var identity := lower(declared[n - 1].pattern);
      SurvivorsSnoc(lower, declared, entry, n - 1);
      var before := Survivors(lower, declared, n - 1);
      var own := Entry(declared[n - 1].pattern, LastFields(lower, declared, identity));
      assert (before + [own])[..|before|] == before;
      assert extended[n - 1] == declared[n - 1];
      if identity == lower(entry.pattern) {
        assert extended[|declared|] == entry;
        assert !IsLast(lower, extended, n - 1);
      } else {
        OtherIdentity(lower, declared, entry, n - 1);
        LastFieldsSnoc(lower, declared, entry, identity);
      }
    }
  }

  lemma OtherIdentity(lower: Text -> Text, declared: seq<Entry>, entry: Entry, i: nat)
    requires i < |declared|
    requires lower(declared[i].pattern) != lower(entry.pattern)
    ensures IsLast(lower, declared + [entry], i) <==> IsLast(lower, declared, i)
    ensures HasPolicy(lower, declared + [entry], lower(declared[i].pattern))
       <==> HasPolicy(lower, declared, lower(declared[i].pattern))
  {
    var extended := declared + [entry];
    assert forall j :: 0 <= j < |declared| ==> extended[j] == declared[j];
    assert extended[|declared|] == entry;
  }

  /** What a survivor list says about one identity. */
  ghost predicate Represents(lower: Text -> Text, entries: seq<Entry>, identity: Text, present: bool, fields: Profile) {
    var i := FirstWithIdentity(lower, entries, identity);
    && (present <==> i < |entries|)
    && (present ==> entries[i].profile == fields && entries[..i] + entries[i + 1..] == Without(lower, entries, identity))
    && (!present ==> entries == Without(lower, entries, identity))
  }

  lemma FirstSnoc(lower: Text -> Text, before: seq<Entry>, own: Entry, identity: Text)
    ensures var i, j := FirstWithIdentity(lower, before, identity), FirstWithIdentity(lower, before + [own], identity);
            && (i < |before| ==> i == j)
            && (i == |before| ==> j == if lower(own.pattern) == identity then i else i + 1)
  {
    var entries := before + [own];
    var i, j := FirstWithIdentity(lower, before, identity), FirstWithIdentity(lower, entries, identity);
    assert forall k :: 0 <= k < |before| ==> entries[k] == before[k];
    assert entries[|before|] == own;
    if i < |before| {
      assert lower(entries[i].pattern) == identity;
    }
  }

  lemma WithoutSnoc(lower: Text -> Text, before: seq<Entry>, own: Entry, identity: Text)
    ensures Without(lower, before + [own], identity)
         == Without(lower, before, identity) + if lower(own.pattern) == identity then [] else [own]
  {
    assert (before + [own])[..|before|] == before;
  }

  lemma RemoveSnoc<T>(before: seq<T>, own: T, i: nat)
    requires i < |before|
    ensures (before + [own])[i] == before[i]
    ensures (before + [own])[..i] + (before + [own])[i + 1..] == (before[..i] + before[i + 1..]) + [own]
  {
  }

  /** Appending an entry of another identity changes nothing; appending the first entry of the
      identity makes it present. */
  lemma RepresentsAppend(lower: Text -> Text, before: seq<Entry>, own: Entry, identity: Text, present: bool, fields: Profile)
    requires Represents(lower, before, identity, present, fields)
    requires lower(own.pattern) == identity ==> !present && own.profile == fields
    ensures Represents(lower, before + [own], identity, present || lower(own.pattern) == identity, fields)
  {
    FirstSnoc(lower, before, own, identity);
    WithoutSnoc(lower, before, own, identity);
    if lower(own.pattern) == identity {
      RemoveLast(before, own);
      Nothing(before);
    } else if present {
      RemoveSnoc(before, own, FirstWithIdentity(lower, before, identity));
    }
  }

  lemma RemoveLast<T>(before: seq<T>, own: T)
    ensures (before + [own])[|before|] == own
    ensures (before + [own])[..|before|] + (before + [own])[|before| + 1..] == before
  {
    assert (before + [own])[|before| + 1..] == [];
  }

  /** The last declaration of `identity` is among the first `n`. */
  ghost predicate LastWithin(lower: Text -> Text, declared: seq<Entry>, n: nat, identity: Text)
    requires n <= |declared|
  {
    exists i :: 0 <= i < n && lower(declared[i].pattern) == identity && IsLast(lower, declared, i)
  }

  lemma LastWithinStep(lower: Text -> Text, declared: seq<Entry>, n: nat, identity: Text)
    requires 0 < n <= |declared|
    ensures LastWithin(lower, declared, n, identity)
       <==> (LastWithin(lower, declared, n - 1, identity)
             || (lower(declared[n - 1].pattern) == identity && IsLast(lower, declared, n - 1)))
    ensures lower(declared[n - 1].pattern) == identity ==> !LastWithin(lower, declared, n - 1, identity)
  {
    if i :| 0 <= i < n && lower(declared[i].pattern) == identity && IsLast(lower, declared, i) {
      assert i == n - 1 || LastWithin(lower, declared, n - 1, identity);
    }
  }

  /** The identity has a survivor exactly when it has a policy and its last declaration is
      within the first `n`; that survivor is unique. */
  lemma {:induction false} SurvivorsRepresent(lower: Text -> Text, declared: seq<Entry>, n: nat, identity: Text)
    requires n <= |declared|
    ensures Represents(lower, Survivors(lower, declared, n), identity,
                       HasPolicy(lower, declared, identity) && LastWithin(lower, declared, n, identity),
                       LastFields(lower, declared, identity))
  {
    if n > 0 {
      SurvivorsRepresent(lower, declared, n - 1, identity);
      LastWithinStep(lower, declared, n, identity);
      var last := declared[n - 1];
      if IsLast(lower, declared, n - 1) && HasPolicy(lower, declared, lower(last.pattern)) {
        RepresentsAppend(lower, Survivors(lower, declared, n - 1),
                         Entry(last.pattern, LastFields(lower, declared, lower(last.pattern))), identity,
                         HasPolicy(lower, declared, identity) && LastWithin(lower, declared, n - 1, identity),
                         LastFields(lower, declared, identity));
      }
    }
  }

  lemma {:induction false} WithoutHasNone(lower: Text -> Text, entries: seq<Entry>, identity: Text)
    ensures forall e :: e in Without(lower, entries, identity) ==> lower(e.pattern) != identity
  {
    if entries != [] {
      WithoutHasNone(lower, entries[..|entries| - 1], identity);
    }
  }

  lemma {:induction false} PutNew(entries: seq<Entry>, entry: Entry)
    requires forall e :: e in entries ==> e.pattern != entry.pattern
    ensures Put(entries, entry) == entries + [entry]
  {
    if entries != [] {
      PutNew(entries[1..], entry);
      assert entries + [entry] == [entries[0]] + (entries[1..] + [entry]);
    }
  }

  lemma {:induction false} HasLast(lower: Text -> Text, declared: seq<Entry>, identity: Text)
    ensures HasPolicy(lower, declared, identity) ==> LastWithin(lower, declared, |declared|, identity)
  {
    if i :| 0 <= i < |declared| && lower(declared[i].pattern) == identity {
      var last := i;
      while !IsLast(lower, declared, last)
        invariant 0 <= last < |declared| && lower(declared[last].pattern) == identity
        decreases |declared| - last
      {
        var j :| last < j < |declared| && lower(declared[j].pattern) == identity;
        last := j;
      }
    }
  }

  /** What one merge step does to a list that represents the identity. */
  lemma MergeEntryMoves(lower: Text -> Text, merged: seq<Entry>, entry: Entry, present: bool, fields: Profile)
    requires Represents(lower, merged, lower(entry.pattern), present, fields)
    requires !present ==> fields == NO_POLICY
    ensures MergeEntry(lower, merged, entry)
         == Without(lower, merged, lower(entry.pattern))
            + if present || entry.profile != NO_POLICY then [Entry(entry.pattern, Overlay(fields, entry.profile))] else []
  {
    var rest := Without(lower, merged, lower(entry.pattern));
    WithoutHasNone(lower, merged, lower(entry.pattern));
    PutNew(rest, Entry(entry.pattern, Overlay(fields, entry.profile)));
  }

  lemma HasPolicySnoc(lower: Text -> Text, declared: seq<Entry>, entry: Entry)
    ensures HasPolicy(lower, declared + [entry], lower(entry.pattern))
       <==> HasPolicy(lower, declared, lower(entry.pattern)) || entry.profile != NO_POLICY
  {
    var extended := declared + [entry];
    assert forall i :: 0 <= i < |declared| ==> extended[i] == declared[i];
    assert extended[|declared|] == entry;
  }

  /** One merge step keeps the declarative reading. */
  lemma MergeEntryDeclares(lower: Text -> Text, declared: seq<Entry>, entry: Entry)
    ensures MergeEntry(lower, Declared(lower, declared), entry) == Declared(lower, declared + [entry])
  {
    var identity := lower(entry.pattern);
    SurvivorsRepresent(lower, declared, |declared|, identity);
    HasLast(lower, declared, identity);
    if !HasPolicy(lower, declared, identity) {
      NoPolicyNoFields(lower, declared, identity);
    }
    MergeEntryMoves(lower, Declared(lower, declared), entry, HasPolicy(lower, declared, identity),
                    LastFields(lower, declared, identity));
    SurvivorsSnoc(lower, declared, entry, |declared|);
    LastFieldsSnoc(lower, declared, entry, identity);
    HasPolicySnoc(lower, declared, entry);
  }

  // ---------------------------------------------------------------------------------------
  // All layers
  // ---------------------------------------------------------------------------------------

  /** Every declaration of every layer, lowest precedence first. */
  ghost function Declarations(layers: seq<seq<RawEntry>>): seq<Entry> {
    if layers == [] then []
    else Declarations(layers[..|layers| - 1]) + Normalize(layers[|layers| - 1])
  }

  lemma {:induction false} MergeAllDeclares(lower: Text -> Text, declared: seq<Entry>, entries: seq<Entry>)
    ensures MergeAll(lower, Declared(lower, declared), entries) == Declared(lower, declared + entries)
  {
    if entries == [] {
      assert declared + [] == declared;
    } else {
      var init, last := entries[..|entries| - 1], entries[|entries| - 1];
      MergeAllDeclares(lower, declared, init);
      MergeEntryDeclares(lower, declared + init, last);
      assert declared + entries == declared + init + [last];
    }
  }

  /** The layer loop of `loadConfig`. */
  method LoadModels(lower: Text -> Text, layers: seq<seq<RawEntry>>) returns (models: seq<Entry>)
    ensures models == Declared(lower, Declarations(layers))
  {
    models := [];
    for index := 0 to |layers|
      invariant models == Declared(lower, Declarations(layers[..index]))
    {
      assert layers[..index + 1][..index] == layers[..index];
      MergeAllDeclares(lower, Declarations(layers[..index]), Normalize(layers[index]));
      var normalized := NormalizeModelProfiles(layers[index]);
      models := MergeModelProfiles(lower, models, normalized);
    }
    assert layers[..|layers|] == layers;
  }

  // ---------------------------------------------------------------------------------------
  // Lookup
  // ---------------------------------------------------------------------------------------

  /** `pattern.replaceAll("*", "").length`, in UTF-16 code units. */
  function Specificity(pattern: Text): nat {
    if pattern == [] then 0
    else (if pattern[0] == Glob.STAR then 0 else if pattern[0] < 0x1_0000 then 1 else 2) + Specificity(pattern[1..])
  }

  ghost predicate Applies(tables: CaseTables, pattern: Text, key: Text) {
    Glob.Matches(Glob.Elements(tables, pattern), tables.FoldAll(key))
  }

  /** Entry `i` applies, none that applies is more specific, and none after it ties. */
  ghost predicate IsBest(tables: CaseTables, models: seq<Entry>, key: Text, i: nat) {
    && i < |models|
    && Applies(tables, models[i].pattern, key)
    && forall j :: 0 <= j < |models| && Applies(tables, models[j].pattern, key) ==>
         if j <= i then Specificity(models[j].pattern) <= Specificity(models[i].pattern)
         else Specificity(models[j].pattern) < Specificity(models[i].pattern)
  }

  datatype Model = Model(provider: Text, id: Text)

  method FindModelProfile(folder: CaseFolder, models: seq<Entry>, model: Option<Model>)
    returns (best: Option<Entry>)
    requires folder.Valid()
    modifies folder`exceptions
    ensures folder.Valid()
    ensures model.None? || model.value.provider == [] || model.value.id == [] ==> best.None?
    ensures model.Some? && model.value.provider != [] && model.value.id != [] ==>
              var key := model.value.provider + [SLASH] + model.value.id;
              if best.Some? then exists i: nat :: IsBest(folder.tables, models, key, i) && best.value == models[i]
              else forall i :: 0 <= i < |models| ==> !Applies(folder.tables, models[i].pattern, key)
  {
    if model.None? || model.value.provider == [] || model.value.id == [] {
      return None;
    }
    var key := model.value.provider + [SLASH] + model.value.id;
    ghost var applies := (pattern: Text) => Applies(folder.tables, pattern, key);
    best := None;
    var bestSpecificity: int := -1;
    ghost var at: nat := 0;
    for index := 0 to |models|
      invariant folder.Valid()
      invariant BestSoFar(applies, models, index, best, bestSpecificity, at)
    {
      var matches;
      ghost var spent;
      matches, spent := Glob.GlobMatches(folder, models[index].pattern, key);
      assert matches == applies(models[index].pattern);
      var specificity := Specificity(models[index].pattern);
      BestStep(applies, models, index, best, bestSpecificity, at);
      if matches && specificity >= bestSpecificity {
        best := Some(models[index]);
        bestSpecificity := specificity;
        at := index;
      }
    }
    BestFound(folder.tables, models, key, best, bestSpecificity, at);
  }

  /** The best entry among the first `n`, at position `at`. */
  ghost predicate BestSoFar(
    applies: Text -> bool, models: seq<Entry>, n: nat, best: Option<Entry>, specificity: int, at: nat)
  {
    && n <= |models|
    && (best.None? ==> specificity == -1 && forall j :: 0 <= j < n ==> !applies(models[j].pattern))
    && (best.Some? ==>
          && at < n && best.value == models[at] && specificity == Specificity(models[at].pattern)
          && applies(models[at].pattern)
          && forall j :: 0 <= j < n && applies(models[j].pattern) ==>
               if j <= at then Specificity(models[j].pattern) <= specificity else Specificity(models[j].pattern) < specificity)
  }

  lemma BestStep(applies: Text -> bool, models: seq<Entry>, n: nat, best: Option<Entry>, specificity: int, at: nat)
    requires n < |models| && BestSoFar(applies, models, n, best, specificity, at)
    ensures var own := Specificity(models[n].pattern);
            if applies(models[n].pattern) && own >= specificity then BestSoFar(applies, models, n + 1, Some(models[n]), own, n)
            else BestSoFar(applies, models, n + 1, best, specificity, at)
  {
  }

  lemma BestFound(tables: CaseTables, models: seq<Entry>, key: Text, best: Option<Entry>, specificity: int, at: nat)
    requires BestSoFar((pattern: Text) => Applies(tables, pattern, key), models, |models|, best, specificity, at)
    ensures if best.Some? then IsBest(tables, models, key, at) && best.value == models[at]
            else forall i :: 0 <= i < |models| ==> !Applies(tables, models[i].pattern, key)
  {
    var applies := (pattern: Text) => Applies(tables, pattern, key);
    assert forall j :: 0 <= j < |models| ==> applies(models[j].pattern) == Applies(tables, models[j].pattern, key);
  }

  // ---------------------------------------------------------------------------------------
  // Which entry is the most specific
  // ---------------------------------------------------------------------------------------

  /** UTF-16. */
  function UnitsOf(c: CodePoint): seq<nat> {
    if c < 0x1_0000 then [c] else [0xD800 + (c - 0x1_0000) / 0x400, 0xDC00 + (c - 0x1_0000) % 0x400]
  }

  function CodeUnits(text: Text): seq<nat> {
    if text == [] then [] else UnitsOf(text[0]) + CodeUnits(text[1..])
  }

  /** How often a code unit occurs. */
  function Occurrences(units: seq<nat>, unit: nat): nat {
    if units == [] then 0 else (if units[0] == unit then 1 else 0) + Occurrences(units[1..], unit)
  }

  lemma {:induction false} OccurrencesConcat(a: seq<nat>, b: seq<nat>, unit: nat)
    ensures Occurrences(a + b, unit) == Occurrences(a, unit) + Occurrences(b, unit)
  {
    if a == [] {
      assert a + b == b;
    } else {
      assert (a + b)[1..] == a[1..] + b;
      OccurrencesConcat(a[1..], b, unit);
    }
  }

  lemma OneUnit(u: nat, unit: nat)
    ensures Occurrences([u], unit) == if u == unit then 1 else 0
  {
    assert [u][1..] == [];
  }

  lemma WildcardUnits(c: CodePoint)
    ensures Occurrences(UnitsOf(c), '*' as int) == if c == Glob.STAR then 1 else 0
  {
    var units := UnitsOf(c);
    OneUnit(units[0], '*' as int);
    if |units| == 2 {
      assert units[1..] == [units[1]];
      OneUnit(units[1], '*' as int);
    }
  }

  /** Specificity counts the code units that are not wildcards. */
  lemma {:induction false} SpecificityCounts(pattern: Text)
    ensures Specificity(pattern) == |CodeUnits(pattern)| - Occurrences(CodeUnits(pattern), '*' as int)
  {
    if pattern != [] {
      SpecificityCounts(pattern[1..]);
      WildcardUnits(pattern[0]);
      OccurrencesConcat(UnitsOf(pattern[0]), CodeUnits(pattern[1..]), '*' as int);
    }
  }

  /** Characters that fold alike are equally long in UTF-16, and none folds like a wildcard. */
  ghost predicate FoldKeepsLength(tables: CaseTables) {
    forall c, d :: tables.Fold(c) == tables.Fold(d) ==> Specificity([c]) == Specificity([d])
  }

  lemma SpecificityFirst(text: Text)
    requires text != []
    ensures Specificity(text) == Specificity([text[0]]) + Specificity(text[1..])
  {
  }

  lemma {:induction false} SpecificitySkips(text: Text, k: nat)
    requires k <= |text|
    ensures Specificity(text[k..]) <= Specificity(text)
  {
    if k > 0 {
      assert text[1..][k - 1..] == text[k..];
      SpecificitySkips(text[1..], k - 1);
    } else {
      assert text[0..] == text;
    }
  }

  /** What a pattern matches is at least as long as what the pattern spells out. */
  lemma {:induction false} MatchedAtLeast(tables: CaseTables, pattern: Text, key: Text)
    requires FoldKeepsLength(tables) && Applies(tables, pattern, key)
    ensures Specificity(pattern) <= Specificity(key)
    decreases |pattern|
  {
    if pattern != [] {
      var folded, rest := tables.FoldAll(key), Glob.Elements(tables, pattern[1..]);
      if pattern[0] == Glob.STAR {
        var k :| 0 <= k <= |folded| && Glob.Matches(rest, folded[k..]);
        assert tables.FoldAll(key[k..]) == folded[k..];
        MatchedAtLeast(tables, pattern[1..], key[k..]);
        SpecificitySkips(key, k);
      } else {
        assert tables.FoldAll(key[1..]) == folded[1..];
        MatchedAtLeast(tables, pattern[1..], key[1..]);
        SpecificityFirst(key);
        SpecificityFirst(pattern);
      }
    }
  }

  /** An entry that names the model is not beaten by anything declared before it, wildcard or not. */
  lemma NameWins(tables: CaseTables, models: seq<Entry>, key: Text, name: nat, best: nat)
    requires FoldKeepsLength(tables) && name < |models| && models[name].pattern == key
    requires IsBest(tables, models, key, best)
    ensures name <= best && Specificity(models[best].pattern) == Specificity(key)
  {
    Glob.MatchesItself(tables, key);
    MatchedAtLeast(tables, models[best].pattern, key);
  }
}
