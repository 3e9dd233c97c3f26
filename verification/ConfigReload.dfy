/** Building a candidate snapshot and applying it, or not (internal/config/manager.go:228-477). */
module ConfigReload {
  import opened Common
  import opened ConfigConflicts
  import opened ConfigFixpoint
  import opened ConfigDiff

  datatype Digest = Oversize(size: int) | Sum(text: string)

  type Files = map<Path, Digest>

  const OVERSIZE: string := "configuration file exceeds 1048576 bytes"

  function Changed(files: Files, known: Files): set<Path> {
    set p | p in files && !(p in known && known[p] == files[p])
  }

  /** An unchanged file with an accepted configuration is not read again. */
  predicate Reused(p: Path, files: Files, known: Files, accepted: Snapshot) {
    p in files && p !in Changed(files, known) && p in accepted
  }

  function Reading(p: Path, files: Files, load: Path -> Result<Config>): Result<Config>
    requires p in files
  {
    if files[p].Oversize? then Failure(OVERSIZE) else load(p)
  }

  /** The configuration that a file contributes before conflicts are resolved. */
  function Contribution(p: Path, files: Files, known: Files, accepted: Snapshot, load: Path -> Result<Config>)
    : Option<Config>
    requires p in files
  {
    if Reused(p, files, known, accepted) then Some(accepted[p])
    else if Reading(p, files, load).Success? then Some(Reading(p, files, load).value)
    else if p in accepted then Some(accepted[p]) else None
  }

  function Loaded(files: Files, known: Files, accepted: Snapshot, load: Path -> Result<Config>): Snapshot {
    map p | p in files && Contribution(p, files, known, accepted, load).Some? ::
      Contribution(p, files, known, accepted, load).value
  }

  /** The errors of the files that could not be read. */
  function Unread(files: Files, known: Files, accepted: Snapshot, load: Path -> Result<Config>): map<Path, string> {
    map p | p in files && !Reused(p, files, known, accepted) && Reading(p, files, load).Failure? ::
      Reading(p, files, load).message
  }

  /** What a refresh may make of the directory: every file contributes its new or its accepted
      configuration, accepted files that still exist are kept, and every file that was read
      but is not used as read has an error. */
  ghost predicate Honest(candidate: Snapshot, errors: map<Path, string>, files: Files, known: Files,
                         accepted: Snapshot, load: Path -> Result<Config>) {
    && candidate.Keys <= files.Keys
    && (forall p :: p in candidate ==>
          (p in accepted && candidate[p] == accepted[p]) || Reading(p, files, load) == Success(candidate[p]))
    && (forall p :: p in accepted && p in files ==> p in candidate)
    && forall p | p in files && !Reused(p, files, known, accepted) ::
         (p in candidate && Reading(p, files, load) == Success(candidate[p])) || p in errors
  }

  /** No other file that can be read, or was accepted, shares the id or the name. */
  ghost predicate Unrivalled(p: Path, c: Config, files: Files, accepted: Snapshot, load: Path -> Result<Config>) {
    forall q | q in files && q != p ::
      && (load(q).Success? ==> load(q).value.id != c.id && load(q).value.name != c.name)
      && (q in accepted ==> accepted[q].id != c.id && accepted[q].name != c.name)
  }

  /** The file is new or has changed since it was accepted. */
  predicate Due(p: Path, files: Files, known: Files, accepted: Snapshot)
    requires p in files
  {
    p !in accepted || p !in known || known[p] != files[p]
  }

  /** The file can be read and has an id that it did not have when it was accepted. */
  predicate Claims(p: Path, files: Files, known: Files, accepted: Snapshot, load: Path -> Result<Config>) {
    && p in files && Due(p, files, known, accepted) && !files[p].Oversize? && load(p).Success?
    && (p in accepted ==> accepted[p].id != load(p).value.id)
  }

  /** The file comes with the id, as read or as accepted. */
  predicate HasId(q: Path, id: string, files: Files, known: Files, accepted: Snapshot, load: Path -> Result<Config>)
    requires q in files
  {
    if Due(q, files, known, accepted) && !files[q].Oversize? && load(q).Success? then load(q).value.id == id
    else q in accepted && accepted[q].id == id
  }

  /** A file that can be read and has no rival is used exactly as read, without an error. */
  ghost predicate ReadIsUsed(candidate: Snapshot, errors: map<Path, string>, files: Files, known: Files,
                             accepted: Snapshot, load: Path -> Result<Config>) {
    forall p | p in files && Due(p, files, known, accepted) && !files[p].Oversize? && load(p).Success?
               && Unrivalled(p, load(p).value, files, accepted, load) ::
      p in candidate && candidate[p] == load(p).value && p !in errors
  }

  /** So is one that kept its id and its name, whoever else wants them. */
  ghost predicate OwnersWin(candidate: Snapshot, errors: map<Path, string>, files: Files, known: Files,
                            accepted: Snapshot, load: Path -> Result<Config>) {
    forall p | p in files && Due(p, files, known, accepted) && !files[p].Oversize? && load(p).Success?
               && p in accepted && load(p).value.id == accepted[p].id && load(p).value.name == accepted[p].name ::
      p in candidate && candidate[p] == load(p).value && p !in errors
  }

  /** An unchanged file is used as it was accepted, without an error. */
  ghost predicate UnchangedIsKept(candidate: Snapshot, errors: map<Path, string>, files: Files, known: Files,
                                  accepted: Snapshot, load: Path -> Result<Config>) {
    forall p | p in files && !Due(p, files, known, accepted) ::
      p in candidate && candidate[p] == accepted[p] && p !in errors
  }

  /** A file that claims an id it did not have, against another file, is not used as read. */
  ghost predicate ClaimsAreLost(candidate: Snapshot, errors: map<Path, string>, files: Files, known: Files,
                                accepted: Snapshot, load: Path -> Result<Config>) {
    forall p, q | Claims(p, files, known, accepted, load) && q in files && q != p
                  && HasId(q, load(p).value.id, files, known, accepted, load) ::
      !(p in candidate && candidate[p] == load(p).value) && p in errors
  }

  /** A new file that cannot be read is not used, and the error says why. */
  ghost predicate UnreadIsOut(candidate: Snapshot, errors: map<Path, string>, files: Files, known: Files,
                              accepted: Snapshot, load: Path -> Result<Config>) {
    forall p | p in files && p !in accepted && (files[p].Oversize? || load(p).Failure?) ::
      && p !in candidate && p in errors
      && errors[p] == if files[p].Oversize? then "configuration file exceeds 1048576 bytes" else load(p).message
  }

  /** Every file gets what it deserves. */
  ghost predicate Deserved(candidate: Snapshot, errors: map<Path, string>, files: Files, known: Files,
                           accepted: Snapshot, load: Path -> Result<Config>) {
    && ReadIsUsed(candidate, errors, files, known, accepted, load)
    && OwnersWin(candidate, errors, files, known, accepted, load)
    && UnchangedIsKept(candidate, errors, files, known, accepted, load)
    && ClaimsAreLost(candidate, errors, files, known, accepted, load)
    && UnreadIsOut(candidate, errors, files, known, accepted, load)
  }

  /** Read every file that has to be read; the order of Go's map does not matter. */
  method LoadAll(files: Files, known: Files, accepted: Snapshot, load: Path -> Result<Config>)
    returns (loaded: Snapshot, errors: map<Path, string>)
    ensures loaded == Loaded(files, known, accepted, load)
    ensures errors == Unread(files, known, accepted, load)
  {
    hide Changed;
    loaded, errors := map[], map[];
    var left := files.Keys;
    while left != {}
      invariant left <= files.Keys
      invariant forall p :: p in loaded <==>
                  p in files && p !in left && Contribution(p, files, known, accepted, load).Some?
      invariant forall p :: p in loaded ==> loaded[p] == Contribution(p, files, known, accepted, load).value
      invariant forall p :: p in errors <==>
                  p in files && p !in left && !Reused(p, files, known, accepted) && Reading(p, files, load).Failure?
      invariant forall p :: p in errors ==> errors[p] == Reading(p, files, load).message
    {
      var p :| p in left;
      left := left - {p};
      if Reused(p, files, known, accepted) {
        loaded := loaded[p := accepted[p]];
      } else {
        var reading := Reading(p, files, load);
        if reading.Failure? {
          errors := errors[p := reading.message];
          if p in accepted {
            loaded := loaded[p := accepted[p]];
          }
        } else {
          loaded := loaded[p := reading.value];
        }
      }
    }
  }

  method BuildCandidate(files: Files, known: Files, accepted: Snapshot, load: Path -> Result<Config>)
    returns (candidate: Snapshot, errors: map<Path, string>)
    ensures Unique(accepted) ==> Unique(candidate) && Honest(candidate, errors, files, known, accepted, load)
    ensures Unique(accepted) ==> candidate.Keys <= files.Keys
    ensures Unique(accepted) ==> Deserved(candidate, errors, files, known, accepted, load)
    ensures Unique(accepted) && !Encodable(candidate) ==>
              !Encodable(accepted) || exists p :: p in files && load(p).Success? && !load(p).value.encodable
    ensures Unique(accepted) ==>
              var loaded := Loaded(files, known, accepted, load);
              && candidate == Iterate(loaded, accepted, Changed(files, known), 2 * |loaded| + 2)
              && errors == Complaints(loaded, accepted, Changed(files, known), Unread(files, known, accepted, load),
                                      2 * |loaded| + 2)
  {
    hide Honest, Iterate, Complaints, CameFrom, LastGood, Unique, Contribution, Deserved, Encodable, Loaded, Unread;
    var loaded, unread := LoadAll(files, known, accepted, load);
    var passes;
    LoadedIsLastGood(files, known, accepted, load);
    candidate, errors, passes := ResolveDuplicateConflicts(loaded, accepted, Changed(files, known), unread);
    if Unique(accepted) {
      OutcomeIsHonest(candidate, errors, unread, files, known, accepted, load);
      OutcomeIsDeserved(candidate, errors, files, known, accepted, load, 2 * |loaded| + 2);
      NotEncodable(candidate, errors, files, known, accepted, load);
    }
  }

  /** A file without a rival is the only one to contribute its id and its name. */
  lemma RivalsAreFiles(p: Path, c: Config, files: Files, known: Files, accepted: Snapshot, load: Path -> Result<Config>)
    requires p in files && Unrivalled(p, c, files, accepted, load)
    requires Contribution(p, files, known, accepted, load) == Some(c)
    ensures var loaded := Loaded(files, known, accepted, load);
      p in loaded && loaded[p] == c && NoRival(loaded, accepted, p)
  {
    hide Changed;
  }

  lemma UsedAsContributed(p: Path, c: Config, files: Files, known: Files, accepted: Snapshot,
                          load: Path -> Result<Config>, n: nat)
    requires p in files && Contribution(p, files, known, accepted, load) == Some(c)
    requires p !in Unread(files, known, accepted, load) && Unrivalled(p, c, files, accepted, load)
    ensures var loaded, changed := Loaded(files, known, accepted, load), Changed(files, known);
      var candidate := Iterate(loaded, accepted, changed, n);
      && p in candidate && candidate[p] == c
      && p !in Complaints(loaded, accepted, changed, Unread(files, known, accepted, load), n)
  {
    RivalsAreFiles(p, c, files, known, accepted, load);
    hide Loaded, Unread, Contribution, Unrivalled, Changed, NoRival;
    LeftAlone(Loaded(files, known, accepted, load), accepted, Changed(files, known),
              Unread(files, known, accepted, load), p, n);
  }

  lemma UnreadHasError(p: Path, files: Files, known: Files, accepted: Snapshot, load: Path -> Result<Config>)
    requires p in files && p !in accepted && (files[p].Oversize? || load(p).Failure?)
    ensures p !in Loaded(files, known, accepted, load) && p in Unread(files, known, accepted, load)
    ensures Unread(files, known, accepted, load)[p]
         == if files[p].Oversize? then "configuration file exceeds 1048576 bytes" else load(p).message
  {
  }

  lemma OwnerIsKept(p: Path, c: Config, files: Files, known: Files, accepted: Snapshot,
                    load: Path -> Result<Config>, n: nat)
    requires p in files && Contribution(p, files, known, accepted, load) == Some(c) && Unique(accepted)
    requires p !in Unread(files, known, accepted, load)
    requires p in accepted && c.id == accepted[p].id && c.name == accepted[p].name
    ensures var loaded, changed := Loaded(files, known, accepted, load), Changed(files, known);
      var candidate := Iterate(loaded, accepted, changed, n);
      && p in candidate && candidate[p] == c
      && p !in Complaints(loaded, accepted, changed, Unread(files, known, accepted, load), n)
  {
    assert p in Loaded(files, known, accepted, load) && Loaded(files, known, accepted, load)[p] == c;
    hide Loaded, Unread, Contribution, Changed, Unique;
    OwnerWins(Loaded(files, known, accepted, load), accepted, Changed(files, known),
              Unread(files, known, accepted, load), p, n);
  }

  lemma ClaimIsContested(p: Path, q: Path, files: Files, known: Files, accepted: Snapshot, load: Path -> Result<Config>)
    requires Claims(p, files, known, accepted, load) && q in files && q != p
    requires HasId(q, load(p).value.id, files, known, accepted, load)
    ensures var loaded := Loaded(files, known, accepted, load);
      p in loaded && loaded[p] == load(p).value && Displaced(loaded, accepted, p, ById)
  {
    var loaded := Loaded(files, known, accepted, load);
    assert q in loaded && loaded[q].id == loaded[p].id;
    assert Contested(loaded, p, ById);
  }

  lemma ClaimIsLost(p: Path, q: Path, files: Files, known: Files, accepted: Snapshot, load: Path -> Result<Config>,
                    n: nat)
    requires Claims(p, files, known, accepted, load) && q in files && q != p && Unique(accepted) && n >= 1
    requires HasId(q, load(p).value.id, files, known, accepted, load)
    ensures var loaded, changed := Loaded(files, known, accepted, load), Changed(files, known);
      var candidate := Iterate(loaded, accepted, changed, n);
      && !(p in candidate && candidate[p] == load(p).value)
  {
    ClaimIsContested(p, q, files, known, accepted, load);
    hide Loaded, Unread, HasId, Changed, Unique, Displaced;
    ClaimantLoses(Loaded(files, known, accepted, load), accepted, Changed(files, known), p, n);
  }

  lemma LostIsReported(p: Path, candidate: Snapshot, errors: map<Path, string>, files: Files, known: Files,
                       accepted: Snapshot, load: Path -> Result<Config>)
    requires Honest(candidate, errors, files, known, accepted, load) && Claims(p, files, known, accepted, load)
    requires !(p in candidate && candidate[p] == load(p).value)
    ensures p in errors
  {
  }

  /** What `n` passes over what the files contribute made of it. */
  ghost predicate Outcome(candidate: Snapshot, errors: map<Path, string>, files: Files, known: Files,
                          accepted: Snapshot, load: Path -> Result<Config>, n: nat) {
    var loaded, changed := Loaded(files, known, accepted, load), Changed(files, known);
    && candidate == Iterate(loaded, accepted, changed, n)
    && errors == Complaints(loaded, accepted, changed, Unread(files, known, accepted, load), n)
  }

  lemma DueIsUsed(candidate: Snapshot, errors: map<Path, string>, files: Files, known: Files,
                  accepted: Snapshot, load: Path -> Result<Config>, n: nat)
    requires Outcome(candidate, errors, files, known, accepted, load, n)
    ensures ReadIsUsed(candidate, errors, files, known, accepted, load)
  {
    hide Iterate, Complaints, Loaded, Unread, Contribution, Unrivalled, Changed, Unique, HasId;
    DueIsRead(files, known, accepted, load);
    forall p | p in files && Due(p, files, known, accepted) && !files[p].Oversize? && load(p).Success?
               && Unrivalled(p, load(p).value, files, accepted, load)
      ensures p in candidate && candidate[p] == load(p).value && p !in errors
    {
      UsedAsContributed(p, load(p).value, files, known, accepted, load, n);
    }
  }

  lemma KeptIsUsed(candidate: Snapshot, errors: map<Path, string>, files: Files, known: Files,
                   accepted: Snapshot, load: Path -> Result<Config>, n: nat)
    requires Outcome(candidate, errors, files, known, accepted, load, n)
    requires Unique(accepted)
    ensures OwnersWin(candidate, errors, files, known, accepted, load)
  {
    hide Iterate, Complaints, Loaded, Unread, Contribution, Unrivalled, Changed, Unique, HasId;
    DueIsRead(files, known, accepted, load);
    forall p | p in files && Due(p, files, known, accepted) && !files[p].Oversize? && load(p).Success?
               && p in accepted && load(p).value.id == accepted[p].id && load(p).value.name == accepted[p].name
      ensures p in candidate && candidate[p] == load(p).value && p !in errors
    {
      OwnerIsKept(p, load(p).value, files, known, accepted, load, n);
    }
  }

  lemma UnchangedIsUsed(candidate: Snapshot, errors: map<Path, string>, files: Files, known: Files,
                        accepted: Snapshot, load: Path -> Result<Config>, n: nat)
    requires Outcome(candidate, errors, files, known, accepted, load, n)
    requires Unique(accepted)
    ensures UnchangedIsKept(candidate, errors, files, known, accepted, load)
  {
    hide Iterate, Complaints, Loaded, Unread, Contribution, Unrivalled, Changed, Unique, HasId;
    DueIsRead(files, known, accepted, load);
    forall p | p in files && !Due(p, files, known, accepted)
      ensures p in candidate && candidate[p] == accepted[p] && p !in errors
    {
      OwnerIsKept(p, accepted[p], files, known, accepted, load, n);
    }
  }

  lemma ClaimIsNotUsed(candidate: Snapshot, errors: map<Path, string>, files: Files, known: Files,
                       accepted: Snapshot, load: Path -> Result<Config>, n: nat)
    requires Outcome(candidate, errors, files, known, accepted, load, n)
    requires Unique(accepted) && n >= 1 && Honest(candidate, errors, files, known, accepted, load)
    ensures ClaimsAreLost(candidate, errors, files, known, accepted, load)
  {
    hide Iterate, Complaints, Loaded, Unread, Contribution, Unrivalled, Changed, Unique, HasId;
    forall p, q | Claims(p, files, known, accepted, load) && q in files && q != p
                  && HasId(q, load(p).value.id, files, known, accepted, load)
      ensures !(p in candidate && candidate[p] == load(p).value) && p in errors
    {
      ClaimIsLost(p, q, files, known, accepted, load, n);
      LostIsReported(p, candidate, errors, files, known, accepted, load);
    }
  }

  lemma UnreadIsNotUsed(candidate: Snapshot, errors: map<Path, string>, files: Files, known: Files,
                        accepted: Snapshot, load: Path -> Result<Config>, n: nat)
    requires Outcome(candidate, errors, files, known, accepted, load, n)
    ensures UnreadIsOut(candidate, errors, files, known, accepted, load)
  {
    hide Iterate, Complaints, Loaded, Unread, Contribution, Unrivalled, Changed, Unique, HasId;
    forall p | p in files && p !in accepted && (files[p].Oversize? || load(p).Failure?)
      ensures p !in candidate && p in errors
      ensures errors[p] == if files[p].Oversize? then "configuration file exceeds 1048576 bytes" else load(p).message
    {
      UnreadHasError(p, files, known, accepted, load);
      StaysOut(Loaded(files, known, accepted, load), accepted, Changed(files, known),
               Unread(files, known, accepted, load), p, n);
    }
  }

  lemma OutcomeIsDeserved(candidate: Snapshot, errors: map<Path, string>, files: Files, known: Files,
                          accepted: Snapshot, load: Path -> Result<Config>, n: nat)
    requires Outcome(candidate, errors, files, known, accepted, load, n)
    requires Unique(accepted) && n >= 1 && Honest(candidate, errors, files, known, accepted, load)
    ensures Deserved(candidate, errors, files, known, accepted, load)
  {
    hide Outcome, Honest, Unique, ReadIsUsed, OwnersWin, UnchangedIsKept, ClaimsAreLost, UnreadIsOut;
    DueIsUsed(candidate, errors, files, known, accepted, load, n);
    KeptIsUsed(candidate, errors, files, known, accepted, load, n);
    UnchangedIsUsed(candidate, errors, files, known, accepted, load, n);
    ClaimIsNotUsed(candidate, errors, files, known, accepted, load, n);
    UnreadIsNotUsed(candidate, errors, files, known, accepted, load, n);
  }

  /** When a file contributes what was read, and when what was accepted. */
  lemma DueIsRead(files: Files, known: Files, accepted: Snapshot, load: Path -> Result<Config>)
    ensures forall p | p in files && Due(p, files, known, accepted) && !files[p].Oversize? && load(p).Success? ::
              Contribution(p, files, known, accepted, load) == Some(load(p).value)
              && p !in Unread(files, known, accepted, load)
    ensures forall p | p in files && !Due(p, files, known, accepted) ::
              Contribution(p, files, known, accepted, load) == Some(accepted[p])
              && p !in Unread(files, known, accepted, load)
  {
  }

  lemma NotEncodable(candidate: Snapshot, errors: map<Path, string>, files: Files, known: Files, accepted: Snapshot,
                     load: Path -> Result<Config>)
    requires Honest(candidate, errors, files, known, accepted, load)
    ensures !Encodable(candidate) ==>
              !Encodable(accepted) || exists p :: p in files && load(p).Success? && !load(p).value.encodable
  {
    if p :| p in candidate && !candidate[p].encodable {
      assert p in accepted && candidate[p] == accepted[p] ==> !Encodable(accepted);
    }
  }

  lemma LoadedIsLastGood(files: Files, known: Files, accepted: Snapshot, load: Path -> Result<Config>)
    ensures LastGood(Loaded(files, known, accepted, load), accepted, Changed(files, known))
  {
  }

  /** What a file contributes, and when it has an error. */
  lemma ContributionOf(p: Path, files: Files, known: Files, accepted: Snapshot, load: Path -> Result<Config>)
    requires p in files
    ensures var loaded := Loaded(files, known, accepted, load);
      && (p in loaded ==>
            (p in accepted && loaded[p] == accepted[p]) || Reading(p, files, load) == Success(loaded[p]))
      && (p in accepted ==> p in loaded)
      && (!Reused(p, files, known, accepted) ==>
            (p in loaded && Reading(p, files, load) == Success(loaded[p])) || p in Unread(files, known, accepted, load))
  {
    hide Changed;
  }

  lemma OutcomeIsHonest(candidate: Snapshot, errors: map<Path, string>, unread: map<Path, string>, files: Files,
                        known: Files, accepted: Snapshot, load: Path -> Result<Config>)
    requires CameFrom(Loaded(files, known, accepted, load), candidate, accepted, errors)
    requires unread.Keys <= errors.Keys && unread == Unread(files, known, accepted, load)
    ensures Honest(candidate, errors, files, known, accepted, load) && candidate.Keys <= files.Keys
  {
    var loaded := Loaded(files, known, accepted, load);
    assert loaded.Keys <= files.Keys;
    hide Loaded, Unread, Reused, Reading;
    forall p | p in candidate
      ensures (p in accepted && candidate[p] == accepted[p]) || Reading(p, files, load) == Success(candidate[p])
    {
      ContributionOf(p, files, known, accepted, load);
    }
    forall p | p in files && !Reused(p, files, known, accepted)
      ensures (p in candidate && Reading(p, files, load) == Success(candidate[p])) || p in errors
    {
      ContributionOf(p, files, known, accepted, load);
    }
    forall p | p in accepted && p in files ensures p in candidate {
      ContributionOf(p, files, known, accepted, load);
    }
  }

  datatype Version = Version(hash: seq<Normal>, timestamp: int, count: nat)

  /** Everything a rejected refresh must put back. */
  datatype Core = Core(accepted: Snapshot, known: Files, errors: map<Path, string>, version: Option<Version>,
                       diff: Option<Diff>, lastCheck: int, applied: Option<Files>, pending: Option<Files>,
                       pendingSince: int)

  function EnabledOnly(list: seq<Config>): seq<Config> {
    if list == [] then []
    else if list[0].enabled then [list[0]] + EnabledOnly(list[1..]) else EnabledOnly(list[1..])
  }

  /** The callback, if there is one, is shown the enabled scrapers. */
  predicate Accepts(callback: Option<seq<Config> -> bool>, list: seq<Config>) {
    callback.Some? ==> callback.value(EnabledOnly(list))
  }

  /** The enabled scrapers of the snapshot by priority and id; there is only one such list. */
  ghost predicate Shown(list: seq<Config>, s: Snapshot) {
    Ascending(list) && forall c :: c in list <==> c in s.Values && c.enabled
  }

  /** The callback saw the enabled scrapers of the snapshot in their order and agreed. */
  ghost predicate Approved(callback: Option<seq<Config> -> bool>, s: Snapshot) {
    callback.Some? ==> exists list :: Shown(list, s) && callback.value(list)
  }

  /** The callback saw the enabled scrapers of some snapshot in their order and refused. */
  ghost predicate Refused(callback: Option<seq<Config> -> bool>) {
    callback.Some? && exists s, list :: Shown(list, s) && !callback.value(list)
  }

  lemma {:induction false} EnabledIsExact(list: seq<Config>)
    requires Ascending(list)
    ensures Ascending(EnabledOnly(list)) && forall c :: c in EnabledOnly(list) <==> c in list && c.enabled
    decreases |list|
  {
    if list != [] {
      var rest := list[1..];
      EnabledIsExact(rest);
      forall c | c in EnabledOnly(rest) ensures Before(list[0], c) {
        var i :| 0 <= i < |rest| && rest[i] == c;
        assert list[i + 1] == c;
      }
      assert list == [list[0]] + rest;
    }
  }

  lemma Approval(callback: Option<seq<Config> -> bool>, s: Snapshot, list: seq<Config>)
    requires SortedList(list, s)
    ensures Accepts(callback, list) ==> Approved(callback, s)
    ensures !Accepts(callback, list) ==> Refused(callback)
  {
    EnabledIsExact(list);
    assert Shown(EnabledOnly(list), s);
  }

  ghost predicate HashOf(hash: seq<Normal>, s: Snapshot) {
    forall list :: SortedList(list, s) ==> Normals(list) == hash
  }

  ghost predicate Encodable(s: Snapshot) {
    forall p :: p in s ==> s[p].encodable
  }

  class ConfigManager {
    const debounce: int
    const load: Path -> Result<Config>
    var accepted: Snapshot
    var known: Files
    var errors: map<Path, string>
    var version: Option<Version>
    var diff: Option<Diff>
    var lastCheck: int
    // Fingerprints stand for the directory contents they are taken of; None is the empty string.
    var applied: Option<Files>
    var pending: Option<Files>
    var pendingSince: int
    var healthy: bool
    // The contents that polls found new, with their times; for the specification only.
    var noted: set<(Files, int)>

    /** What every reachable state has. */
    ghost predicate Valid()
      reads this
    {
      && Unique(accepted)
      && accepted.Keys <= known.Keys
      && Encodable(accepted)
      && (version.Some? ==> HashOf(version.value.hash, accepted))
      && (pending.Some? ==> (pending.value, pendingSince) in noted)
    }

    function State(): Core
      reads this
    {
      Core(accepted, known, errors, version, diff, lastCheck, applied, pending, pendingSince)
    }

    /** Both definitions, spelled out. */
    lemma Known()
      ensures Valid() <==> Unique(accepted) && accepted.Keys <= known.Keys && Encodable(accepted)
                           && (version.Some? ==> HashOf(version.value.hash, accepted))
                           && (pending.Some? ==> (pending.value, pendingSince) in noted)
      ensures State() == Core(accepted, known, errors, version, diff, lastCheck, applied, pending, pendingSince)
    {
    }

    constructor (debounce: int, load: Path -> Result<Config>)
      ensures Valid() && accepted == map[] && version.None? && applied.None? && pending.None? && noted == {}
    {
      this.debounce, this.load := debounce, load;
      accepted, known, errors := map[], map[], map[];
      version, diff, lastCheck, applied, pending, pendingSince, healthy := None, None, 0, None, None, 0, true;
      noted := {};
    }

    /** A poll may not act yet: the directory changed since it was applied, and this contents
        was not noted at least `debounce` ago. */
    predicate Waits(force: bool, files: Files, now: int)
      reads this
    {
      !force && Some(files) != applied
      && (Some(files) != pending || (debounce > 0 && now - pendingSince < debounce))
    }

    /** One refresh at time `now` that saw `scan`, with the callback to ask, if any. */
    method Refresh(force: bool, scan: Result<Files>, now: int, callback: Option<seq<Config> -> bool>)
      returns (r: Result<bool>)
      requires Valid()
      modifies this
      ensures Valid()
      // a scan that failed
      ensures scan.Failure? ==> r.Failure? && State() == old(State()).(lastCheck := now) && !healthy
      // a poll that has to wait
      ensures scan.Success? && old(Waits(force, scan.value, now)) ==>
                r == Success(false) && healthy == old(healthy)
                && State() == if old(pending) == Some(scan.value) then old(State())
                              else old(State()).(pending := Some(scan.value), pendingSince := now)
      // nothing new
      ensures scan.Success? && Some(scan.value) == old(applied) ==>
                r == Success(false) && State() == old(State()).(lastCheck := now) && healthy
      // a failure after the scan: everything is put back
      ensures scan.Success? && r.Failure? ==> State().(lastCheck := 0) == old(State()).(lastCheck := 0) && !healthy
      // and there are but two reasons
      ensures scan.Success? && r.Failure? ==>
                || Refused(callback)
                || exists p :: p in scan.value && load(p).Success? && !load(p).value.encodable
      // an applied change
      ensures r == Success(true) ==> Approved(callback, accepted)
      ensures applied != old(applied) ==> r.Success? && applied == Some(scan.value) && pending.None? && healthy
                                          && !old(Waits(force, scan.value, now))
      ensures scan.Success? && r.Success? && !old(Waits(force, scan.value, now)) && Some(scan.value) != old(applied) ==>
                && applied == Some(scan.value) && known == scan.value && lastCheck == now
                && Honest(accepted, errors, scan.value, old(known), old(accepted), load)
                && Deserved(accepted, errors, scan.value, old(known), old(accepted), load)
      // a poll applies only what an earlier poll noted, long enough ago
      ensures !force && applied != old(applied) ==>
                exists since :: (scan.value, since) in old(noted) && (debounce > 0 ==> now - since >= debounce)
      ensures noted == old(noted) + if scan.Success? && old(Waits(force, scan.value, now))
                                       && old(pending) != Some(scan.value)
                                    then {(scan.value, now)} else {}
      // the version moves exactly when the contents does, and the diff says how
      ensures r == Success(true) ==>
                && version.Some? && version.value.timestamp == now
                && diff.Some? && DiffersBy(old(accepted), accepted, diff.value)
      ensures r != Success(true) ==> version == old(version) && diff == old(diff)
      ensures r == Success(false) ==> SameContents(old(accepted), accepted)
    {
      hide Honest, Deserved, HashOf, Encodable, SameContents, DiffersBy, Unique;
      if scan.Failure? {
        healthy, lastCheck := false, now;
        Itself(accepted);
        return Failure(scan.message);
      }
      var files := scan.value;
      Itself(accepted);
      if !force && Some(files) != applied {
        if Some(files) != pending {
          pending, pendingSince := Some(files), now;
          noted := noted + {(files, now)};
          return Success(false);
        }
        if debounce > 0 && now - pendingSince < debounce {
          return Success(false);
        }
      }
      if Some(files) == applied {
        lastCheck, healthy := now, true;
        return Success(false);
      }
      r := Apply(files, now, callback);
    }

    /** The candidate, both sorted lists and their hashes. */
    method Evaluate(files: Files)
      returns (candidate: Snapshot, reported: map<Path, string>, previous: seq<Config>, current: seq<Config>,
               newHash: Result<seq<Normal>>, oldHash: Result<seq<Normal>>)
      requires Valid()
      ensures Unique(candidate) && candidate.Keys <= files.Keys && SortedList(current, candidate)
      ensures Honest(candidate, reported, files, known, accepted, load)
      ensures Deserved(candidate, reported, files, known, accepted, load)
      ensures !Encodable(candidate) ==> exists p :: p in files && load(p).Success? && !load(p).value.encodable
      ensures newHash.Success? && oldHash.Success? ==> Encodable(candidate) && HashOf(newHash.value, candidate)
      ensures newHash.Success? && newHash == oldHash ==>
                SameContents(accepted, candidate) && forall h :: HashOf(h, accepted) ==> HashOf(h, candidate)
      ensures newHash.Success? && oldHash.Success? && newHash != oldHash ==>
                forall d :: DiffOf(previous, current, d) ==> DiffersBy(accepted, candidate, d)
      ensures oldHash.Success? && (newHash.Success? <==> Encodable(candidate))
    {
      hide Distinct, DiffOf, Unique, Honest, Deserved, Iterate, Loaded, Ascending, SortedList, Normals, ConfigHash;
      hide HashOf, SameContents, DiffersBy;
      candidate, reported := BuildCandidate(files, known, accepted, load);
      current := SortedScrapers(candidate);
      previous := SortedScrapers(accepted);
      newHash, oldHash := ConfigHash(current), ConfigHash(previous);
      HashExists(accepted, previous);
      HashExists(candidate, current);
      if newHash.Success? {
        Hashes(accepted, previous, candidate, current);
      }
    }

    /** The part of a refresh that builds a candidate and tries to put it in force. */
    method Apply(files: Files, now: int, callback: Option<seq<Config> -> bool>) returns (r: Result<bool>)
      requires Valid() && Some(files) != applied
      modifies this
      ensures Valid()
      ensures r.Failure? ==> State().(lastCheck := 0) == old(State()).(lastCheck := 0) && !healthy
      ensures r.Failure? ==>
                Refused(callback) || exists p :: p in files && load(p).Success? && !load(p).value.encodable
      ensures r == Success(true) ==> Approved(callback, accepted)
      ensures r.Success? ==>
                && applied == Some(files) && known == files && lastCheck == now && pending.None? && healthy
                && Honest(accepted, errors, files, old(known), old(accepted), load)
                && Deserved(accepted, errors, files, old(known), old(accepted), load)
      ensures r == Success(true) ==>
                && version.Some? && version.value.timestamp == now
                && diff.Some? && DiffersBy(old(accepted), accepted, diff.value)
      ensures r != Success(true) ==> version == old(version) && diff == old(diff)
      ensures r == Success(false) ==> SameContents(old(accepted), accepted)
      ensures noted == old(noted)
    {
      hide *;
      Known();
      var candidate, reported, previousList, candidates, newHash, oldHash := Evaluate(files);
      if newHash.Failure? {
        healthy, lastCheck := false, now;
        Known();
        return Failure(newHash.message);
      }
      if newHash == oldHash {
        Adopt(files, now, candidate, reported);
        Known();
        return Success(false);
      }
      var change := ComputeScrapersDiff(previousList, candidates);
      var next := Version(newHash.value, now, |candidates|);
      var agreed := PutInForce(files, now, candidate, reported, next, change, callback, candidates);
      Approval(callback, candidate, candidates);
      if !agreed {
        Known();
        return Failure("callback rejected the update");
      }
      Known();
      r := Success(true);
    }

    /** The same contents from other files: only the bookkeeping changes. */
    method Adopt(files: Files, now: int, candidate: Snapshot, reported: map<Path, string>)
      modifies this
      ensures State() == Core(candidate, files, reported, old(version), old(diff), now, Some(files), None, 0)
      ensures healthy && noted == old(noted)
    {
      accepted, errors, known, lastCheck := candidate, reported, files, now;
      pending, pendingSince, applied, healthy := None, 0, Some(files), true;
    }

    /** Install the candidate, ask the callback, and put everything back if it refuses. */
    method PutInForce(files: Files, now: int, candidate: Snapshot, reported: map<Path, string>, next: Version,
                      change: Diff, callback: Option<seq<Config> -> bool>, candidates: seq<Config>)
      returns (agreed: bool)
      modifies this
      ensures agreed == Accepts(callback, candidates) == healthy
      ensures State() ==
                if agreed then Core(candidate, files, reported, Some(next), Some(change), now, Some(files), None, 0)
                else old(State())
      ensures noted == old(noted)
    {
      hide Accepts;
      var previous := State();
      accepted, known, errors, lastCheck := candidate, files, reported, now;
      version, diff := Some(next), Some(change);
      agreed := Accepts(callback, candidates);
      if agreed {
        pending, pendingSince, applied, healthy := None, 0, Some(files), true;
      } else {
        RollBack(previous);
      }
    }

    /** Put everything back as it was. */
    method RollBack(previous: Core)
      modifies this
      ensures State() == previous && !healthy && noted == old(noted)
    {
      accepted, known, errors := previous.accepted, previous.known, previous.errors;
      version, diff, lastCheck := previous.version, previous.diff, previous.lastCheck;
      applied, pending, pendingSince := previous.applied, previous.pending, previous.pendingSince;
      healthy := false;
    }
  }

  /** The two snapshots have the same normalised contents. */
  ghost predicate SameContents(s: Snapshot, t: Snapshot) {
    forall a, b | SortedList(a, s) && SortedList(b, t) :: Normals(a) == Normals(b)
  }

  /** The contents differ, and the diff is exactly how. */
  ghost predicate DiffersBy(s: Snapshot, t: Snapshot, diff: Diff) {
    diff != Diff({}, {}, map[])
    && forall a, b | SortedList(a, s) && SortedList(b, t) :: DiffOf(a, b, diff) && Normals(a) != Normals(b)
  }

  /** A snapshot compared with itself. */
  lemma Itself(s: Snapshot)
    requires Unique(s)
    ensures SameContents(s, s)
  {
    forall a, b | SortedList(a, s) && SortedList(b, s) ensures Normals(a) == Normals(b) {
      SortedListIsUnique(a, b);
    }
  }

  /** What comparing two hashes says about the snapshots they were taken of. */
  lemma Hashes(before: Snapshot, previous: seq<Config>, after: Snapshot, current: seq<Config>)
    requires Unique(before) && Unique(after) && SortedList(previous, before) && SortedList(current, after)
    requires ConfigHash(previous).Success? && ConfigHash(current).Success?
    ensures Encodable(after) && HashOf(ConfigHash(current).value, after)
    ensures ConfigHash(current) == ConfigHash(previous) ==>
              SameContents(before, after) && forall h :: HashOf(h, before) ==> HashOf(h, after)
    ensures ConfigHash(current) != ConfigHash(previous) ==>
              forall d :: DiffOf(previous, current, d) ==> DiffersBy(before, after, d)
  {
    forall a | SortedList(a, before) ensures a == previous {
      SortedListIsUnique(a, previous);
    }
    forall a | SortedList(a, after) ensures a == current {
      SortedListIsUnique(a, current);
    }
    AscendingHasUniqueIds(before, previous);
    AscendingHasUniqueIds(after, current);
    forall d | DiffOf(previous, current, d)
      ensures d == Diff({}, {}, map[]) <==> Normals(previous) == Normals(current)
    {
      DiffIsExact(previous, current, d);
    }
  }

  /** Accepted configurations always have a hash. */
  lemma HashExists(s: Snapshot, list: seq<Config>)
    requires SortedList(list, s)
    ensures ConfigHash(list).Success? <==> Encodable(s)
  {
    forall p | p in s ensures s[p] in list {
      assert s[p] in s.Values;
    }
    forall c | c in list ensures exists p :: p in s && s[p] == c {
      assert c in s.Values;
    }
  }
}
