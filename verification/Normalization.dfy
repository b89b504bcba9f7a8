/** The journaled normalization runs, and the recognizer of what they can leave behind. */
module Normalization {
  import opened Text
  import opened Readback
  import opened Provider
  import P = Publication
  import opened NormalizationPlan
  import opened Family

  // ---------------------------------------------------------------- scripts

  function Check(plan: NormPlan, remaining: seq<NormAsset>, withChecksum: bool, checksumID: Option<int>): Event {
    Read(plan.releaseID, false, Expected(plan, remaining, withChecksum), PinOf(plan, remaining, checksumID), None, map[], true)
  }

  function Note(plan: NormPlan, phase: string, action: Action): Event {
    Intent(phase, action, plan.releaseID, true)
  }

  function Preflight(plan: NormPlan, deleting: bool, path: string): seq<Event> {
    [Check(plan, plan.originals, deleting, None), OpenJournal(path, true)]
  }

  function Sending(plan: NormPlan): seq<Event> {
    [OpenAsset(plan.checksum, true), Note(plan, "NORMALIZATION_UPLOAD", Named("UPLOAD_SHA256SUMS")),
     Upload(plan.releaseID, plan.checksum, true)]
  }

  function Proving(plan: NormPlan): seq<Event> {
    [Check(plan, plan.originals, true, None), Note(plan, "NORMALIZATION_READBACK", Named("VERIFIED_CHECKSUM_UPLOAD"))]
  }

  function Uploading(plan: NormPlan): seq<Event> {
    Sending(plan) + Proving(plan)
  }

  function PublicNote(plan: NormPlan): Event {
    Note(plan, "NORMALIZATION_PUBLIC_READBACK", Named("VERIFIED_FIVE_ASSETS_BEFORE_DELETE"))
  }

  function PublicPart(plan: NormPlan, projected: seq<Asset>): seq<Event> {
    P.PublicReads(projected, |projected|) + [PublicNote(plan)]
  }

  function DeleteOne(plan: NormPlan, checksumID: int, i: nat): seq<Event>
    requires i < |plan.remove|
  {
    [Check(plan, Remaining(plan, i), true, Some(checksumID)),
     Note(plan, "NORMALIZATION_DELETE", DeleteAsset(plan.remove[i].id)), Delete(plan.remove[i].id, true),
     Check(plan, Remaining(plan, i + 1), true, Some(checksumID))]
  }

  function Deletions(plan: NormPlan, checksumID: int, n: nat): seq<Event>
    requires n <= |plan.remove|
  {
    if n == 0 then [] else Deletions(plan, checksumID, n - 1) + DeleteOne(plan, checksumID, n - 1)
  }

  function Finishing(plan: NormPlan, projected: seq<Asset>, checksumID: int): seq<Event> {
    P.PublicReads(projected, |projected|)
    + [Check(plan, plan.retain, true, Some(checksumID)),
       Note(plan, "NORMALIZATION_READBACK", Named("VERIFIED_FIVE_ASSET_RELEASE"))]
  }

  function DeleteScript(plan: NormPlan, projected: seq<Asset>, checksumID: int): seq<Event> {
    PublicPart(plan, projected) + (Deletions(plan, checksumID, |plan.remove|) + Finishing(plan, projected, checksumID))
  }

  function Script(plan: NormPlan, deleting: bool, projected: seq<Asset>, path: string, checksumID: int): seq<Event> {
    Preflight(plan, deleting, path) + if deleting then DeleteScript(plan, projected, checksumID) else Uploading(plan)
  }

  // ---------------------------------------------------------------- the upload run

  /** What an honest provider's true state is known to be between two steps. */
  ghost predicate Proven(honest: bool, env: Primitives, s: State, read: Downloads, plan: NormPlan,
                         remaining: seq<NormAsset>, withChecksum: bool)
  {
    honest ==> Exactly(env, s, read, plan, remaining, withChecksum)
  }

  /** The true state after a stop: in the family. */
  ghost predicate Recoverable(honest: bool, env: Primitives, s: State, read: Downloads, plan: NormPlan) {
    honest ==> InFamily(env, s, read, plan)
  }

  method ReadbackInventory(p: ReleaseService, plan: NormPlan, remaining: seq<NormAsset>, withChecksum: bool,
                           checksumID: Option<int>)
    returns (ok: bool, state: Option<State>, ghost e: Event)
    modifies p`step, p`trace
    ensures p.trace == old(p.trace) + [e] && p.step == old(p.step) + 1
    ensures ok ==> Carries(p.env, plan.original, e, Check(plan, remaining, withChecksum, checksumID)) && state == e.state
    ensures !ok ==> Fails(p.env, plan.original, e, Check(plan, remaining, withChecksum, checksumID)) && !e.ok
    ensures ok ==> state.Some? && Exactly(p.env, state.value, e.downloads, plan, remaining, withChecksum)
    ensures ok ==> Proven(p.honest, p.env, p.remote, p.stored, plan, remaining, withChecksum)
    ensures p.honest && checksumID.None? ==>
              (ok <==> p.answers(old(p.step)).state.Some? && Exactly(p.env, p.remote, p.stored, plan, remaining, withChecksum))
  {
    hide Accepts, PinHolds;
    ok, state, e := p.ReadRelease(plan.original, plan.releaseID, false, Expected(plan, remaining, withChecksum),
                                  PinOf(plan, remaining, checksumID));
    if ok && checksumID.Some? {
      PinWeaker(state.value, plan, remaining, checksumID.value);
    }
  }

  lemma ProvenRecoverable(honest: bool, env: Primitives, s: State, read: Downloads, plan: NormPlan, deleting: bool)
    requires Proven(honest, env, s, read, plan, plan.originals, deleting)
    ensures Recoverable(honest, env, s, read, plan)
  {
    assert Remaining(plan, 0) == plan.originals;
  }

  method UploadChecksum(p: ReleaseService, plan: NormPlan) returns (ok: bool, ghost acts: seq<Event>)
    requires Proven(p.honest, p.env, p.remote, p.stored, plan, plan.originals, false)
    modifies p
    ensures p.trace == old(p.trace) + acts
    ensures Conforms(p.env, plan.original, acts, Uploading(plan))
    ensures ok ==> Completes(p.env, plan.original, acts, Uploading(plan))
    ensures !ok ==> Stops(acts)
    ensures Recoverable(p.honest, p.env, p.remote, p.stored, plan)
  {
    hide Recoverable, Proven, Conforms, Completes, Sending, Proving;
    ok, acts := SendChecksum(p, plan);
    ConformsLonger(p.env, plan.original, acts, Sending(plan), Proving(plan));
    if ok {
      ghost var more;
      ok, more := ProveUpload(p, plan);
      ConformsThen(p.env, plan.original, acts, Sending(plan), more, Proving(plan));
      acts := acts + more;
    }
  }

  method ProveUpload(p: ReleaseService, plan: NormPlan) returns (ok: bool, ghost acts: seq<Event>)
    modifies p
    ensures p.trace == old(p.trace) + acts && p.remote == old(p.remote) && p.stored == old(p.stored)
    ensures Conforms(p.env, plan.original, acts, Proving(plan))
    ensures ok ==> Completes(p.env, plan.original, acts, Proving(plan))
    ensures !ok ==> Stops(acts)
  {
    hide Proven, Exactly, Expected, PinOf, Accepts, PinHolds;
    ghost var e;
    var state;
    ok, state, e := ReadbackInventory(p, plan, plan.originals, true, None);
    acts := [e];
    if !ok {
      return;
    }
    ok := p.WriteIntent("NORMALIZATION_READBACK", Named("VERIFIED_CHECKSUM_UPLOAD"), plan.releaseID);
    acts := acts + [Intent("NORMALIZATION_READBACK", Named("VERIFIED_CHECKSUM_UPLOAD"), plan.releaseID, ok)];
  }

  method SendChecksum(p: ReleaseService, plan: NormPlan) returns (ok: bool, ghost acts: seq<Event>)
    requires Proven(p.honest, p.env, p.remote, p.stored, plan, plan.originals, false)
    modifies p
    ensures p.trace == old(p.trace) + acts
    ensures Conforms(p.env, plan.original, acts, Sending(plan))
    ensures ok ==> Completes(p.env, plan.original, acts, Sending(plan))
    ensures !ok ==> Stops(acts)
    ensures Recoverable(p.honest, p.env, p.remote, p.stored, plan)
  {
    hide Recoverable, Proven, Exactly, Expected, PinOf, Accepts, PinHolds;
    ProvenRecoverable(p.honest, p.env, p.remote, p.stored, plan, false);
    ok := p.OpenLocal(plan.checksum);
    acts := [OpenAsset(plan.checksum, ok)];
    if !ok {
      return;
    }
    ok := p.WriteIntent("NORMALIZATION_UPLOAD", Named("UPLOAD_SHA256SUMS"), plan.releaseID);
    acts := acts + [Intent("NORMALIZATION_UPLOAD", Named("UPLOAD_SHA256SUMS"), plan.releaseID, ok)];
    if !ok {
      return;
    }
    ok := DispatchChecksum(p, plan);
    acts := acts + [Upload(plan.releaseID, plan.checksum, ok)];
  }

  method DispatchChecksum(p: ReleaseService, plan: NormPlan) returns (ok: bool)
    requires Proven(p.honest, p.env, p.remote, p.stored, plan, plan.originals, false)
    modifies p
    ensures p.trace == old(p.trace) + [Upload(plan.releaseID, plan.checksum, ok)]
    ensures Recoverable(p.honest, p.env, p.remote, p.stored, plan)
  {
    hide Exactly, Stores, WithAsset;
    ghost var applied;
    ok, applied := p.DispatchUpload(plan.releaseID, plan.checksum);
    if applied {
      ghost var added: RemoteAsset, bytes :|
        && p.remote == WithAsset(old(p.remote), added) && p.stored == old(p.stored)[added.id := bytes]
        && Stores(p.env, old(p.remote), old(p.stored), added, bytes, plan.checksum);
      UploadKeeps(p.env, old(p.remote), old(p.stored), plan, plan.originals, added, bytes);
      assert Remaining(plan, 0) == plan.originals;
    }
  }

  // ---------------------------------------------------------------- the delete run

  method DeleteNext(p: ReleaseService, plan: NormPlan, checksumID: int, remaining: seq<NormAsset>, i: nat)
    returns (ok: bool, left: seq<NormAsset>, ghost acts: seq<Event>)
    requires Sane(plan) && i < |plan.remove| && remaining == Remaining(plan, i)
    requires Recoverable(p.honest, p.env, p.remote, p.stored, plan)
    modifies p
    ensures p.trace == old(p.trace) + acts
    ensures Conforms(p.env, plan.original, acts, DeleteOne(plan, checksumID, i))
    ensures ok ==> Completes(p.env, plan.original, acts, DeleteOne(plan, checksumID, i)) && left == Remaining(plan, i + 1)
    ensures !ok ==> Stops(acts)
    ensures Recoverable(p.honest, p.env, p.remote, p.stored, plan)
  {
    hide Sane, Exactly, Expected, PinOf, Accepts, PinHolds, Recoverable;
    var gone := plan.remove[i];
    left := remaining;
    ghost var e;
    var state;
    ok, state, e := ReadbackInventory(p, plan, remaining, true, Some(checksumID));
    acts := [e];
    if !ok {
      return;
    }
    ok := p.WriteIntent("NORMALIZATION_DELETE", DeleteAsset(gone.id), plan.releaseID);
    acts := acts + [Intent("NORMALIZATION_DELETE", DeleteAsset(gone.id), plan.releaseID, ok)];
    if !ok {
      return;
    }
    ok := DispatchNext(p, plan, i);
    acts := acts + [Delete(gone.id, ok)];
    if !ok {
      return;
    }
    left := RemoveId(remaining, gone.id);
    ok, state, e := ReadbackInventory(p, plan, left, true, Some(checksumID));
    acts := acts + [e];
  }

  method DispatchNext(p: ReleaseService, plan: NormPlan, i: nat) returns (ok: bool)
    requires Sane(plan) && i < |plan.remove| && Proven(p.honest, p.env, p.remote, p.stored, plan, Remaining(plan, i), true)
    modifies p
    ensures p.trace == old(p.trace) + [Delete(plan.remove[i].id, ok)]
    ensures Recoverable(p.honest, p.env, p.remote, p.stored, plan)
  {
    hide Exactly, WithoutAsset;
    ghost var applied;
    ok, applied := p.DispatchDelete(plan.remove[i].id);
    if applied {
      RemainingIs(plan, i);
      NextIsThere(plan, i, i);
      DeleteKeeps(p.env, old(p.remote), old(p.stored), plan, Remaining(plan, i), plan.remove[i]);
      assert Remaining(plan, i + 1) == DropId(Remaining(plan, i), plan.remove[i].id);
    }
  }

  method DeleteAll(p: ReleaseService, plan: NormPlan, checksumID: int) returns (ok: bool, ghost acts: seq<Event>)
    requires Sane(plan) && Recoverable(p.honest, p.env, p.remote, p.stored, plan)
    modifies p
    ensures p.trace == old(p.trace) + acts
    ensures Conforms(p.env, plan.original, acts, Deletions(plan, checksumID, |plan.remove|))
    ensures ok ==> Completes(p.env, plan.original, acts, Deletions(plan, checksumID, |plan.remove|))
    ensures !ok ==> Stops(acts)
    ensures Recoverable(p.honest, p.env, p.remote, p.stored, plan)
  {
    hide Sane, Recoverable, Conforms, Completes, DeleteOne;
    var remaining := plan.originals;
    acts := [];
    P.NothingYet(p.env, plan.original);
    var i := 0;
    while i < |plan.remove|
      invariant 0 <= i <= |plan.remove| && remaining == Remaining(plan, i) && Recoverable(p.honest, p.env, p.remote, p.stored, plan)
      invariant p.trace == old(p.trace) + acts
      invariant Completes(p.env, plan.original, acts, Deletions(plan, checksumID, i))
    {
      ghost var more;
      ok, remaining, more := DeleteNext(p, plan, checksumID, remaining, i);
      ConformsThen(p.env, plan.original, acts, Deletions(plan, checksumID, i), more, DeleteOne(plan, checksumID, i));
      acts := acts + more;
      if !ok {
        DeletionsGrow(p.env, plan, checksumID, acts, i + 1, |plan.remove|);
        return;
      }
      i := i + 1;
    }
    P.CompletesConforms(p.env, plan.original, acts, Deletions(plan, checksumID, i));
    return true, acts;
  }

  lemma {:induction false} DeletionsGrow(env: Primitives, plan: NormPlan, checksumID: int, acts: seq<Event>, m: nat,
                                         n: nat)
    requires m <= n <= |plan.remove| && Conforms(env, plan.original, acts, Deletions(plan, checksumID, m))
    ensures Conforms(env, plan.original, acts, Deletions(plan, checksumID, n))
    decreases n
  {
    hide Conforms, DeleteOne;
    if m < n {
      DeletionsGrow(env, plan, checksumID, acts, m, n - 1);
      ConformsLonger(env, plan.original, acts, Deletions(plan, checksumID, n - 1), DeleteOne(plan, checksumID, n - 1));
    }
  }

  /** The id under which the preflight state holds the checksum asset, 0 without one. */
  method ChecksumID(remote: seq<RemoteAsset>) returns (id: int)
    requires Sound(remote)
    ensures CHECKSUMS in RemoteNames(remote) ==> Identified(remote, Identity(CHECKSUMS, id))
  {
    id := 0;
    var i := 0;
    while i < |remote|
      invariant 0 <= i <= |remote|
      invariant CHECKSUMS in RemoteNames(remote)[..i] ==>
                  exists k :: 0 <= k < i && remote[k].name == CHECKSUMS && remote[k].id == id
    {
      assert RemoteNames(remote)[..i + 1] == RemoteNames(remote)[..i] + [remote[i].name];
      if remote[i].name == CHECKSUMS {
        id := remote[i].id;
      }
      i := i + 1;
    }
    assert RemoteNames(remote)[..i] == RemoteNames(remote);
  }

  method PublicParity(p: ReleaseService, plan: NormPlan, projected: seq<Asset>) returns (ok: bool,
                      ghost acts: seq<Event>)
    modifies p
    ensures p.trace == old(p.trace) + acts && p.remote == old(p.remote) && p.stored == old(p.stored)
    ensures Conforms(p.env, plan.original, acts, PublicPart(plan, projected))
    ensures ok ==> Completes(p.env, plan.original, acts, PublicPart(plan, projected))
    ensures !ok ==> Stops(acts)
  {
    hide Conforms, Completes, Carries, P.PublicReads;
    ghost var downloads := P.PublicReads(projected, |projected|);
    ok, acts := P.ReadAllPublic(p, plan.original, projected);
    ConformsLonger(p.env, plan.original, acts, downloads, [PublicNote(plan)]);
    if !ok {
      return;
    }
    ok := p.WriteIntent("NORMALIZATION_PUBLIC_READBACK", Named("VERIFIED_FIVE_ASSETS_BEFORE_DELETE"), plan.releaseID);
    ghost var e := Intent("NORMALIZATION_PUBLIC_READBACK", Named("VERIFIED_FIVE_ASSETS_BEFORE_DELETE"), plan.releaseID, ok);
    P.IntentStep(p.env, plan.original, e.phase, e.action, plan.releaseID, ok);
    P.Advance(p.env, plan.original, acts, downloads, e, PublicNote(plan));
    acts := acts + [e];
  }

  method Finish(p: ReleaseService, plan: NormPlan, projected: seq<Asset>, checksumID: int)
    returns (ok: bool, ghost acts: seq<Event>)
    modifies p
    ensures p.trace == old(p.trace) + acts && p.remote == old(p.remote) && p.stored == old(p.stored)
    ensures Conforms(p.env, plan.original, acts, Finishing(plan, projected, checksumID))
    ensures ok ==> Completes(p.env, plan.original, acts, Finishing(plan, projected, checksumID))
    ensures !ok ==> Stops(acts)
  {
    hide Conforms, Completes, Carries, Fails, P.PublicReads, Check;
    ghost var downloads := P.PublicReads(projected, |projected|);
    ghost var check, last := Check(plan, plan.retain, true, Some(checksumID)),
                             Note(plan, "NORMALIZATION_READBACK", Named("VERIFIED_FIVE_ASSET_RELEASE"));
    assert Finishing(plan, projected, checksumID) == downloads + [check] + [last];
    ok, acts := P.ReadAllPublic(p, plan.original, projected);
    ConformsLonger(p.env, plan.original, acts, downloads, [check]);
    ConformsLonger(p.env, plan.original, acts, downloads + [check], [last]);
    if !ok {
      return;
    }
    ghost var e;
    var state;
    ok, state, e := ReadbackInventory(p, plan, plan.retain, true, Some(checksumID));
    P.Advance(p.env, plan.original, acts, downloads, e, check);
    acts := acts + [e];
    ConformsLonger(p.env, plan.original, acts, downloads + [check], [last]);
    if !ok {
      return;
    }
    ok := p.WriteIntent("NORMALIZATION_READBACK", Named("VERIFIED_FIVE_ASSET_RELEASE"), plan.releaseID);
    ghost var noted := Intent("NORMALIZATION_READBACK", Named("VERIFIED_FIVE_ASSET_RELEASE"), plan.releaseID, ok);
    P.IntentStep(p.env, plan.original, noted.phase, noted.action, plan.releaseID, ok);
    P.Advance(p.env, plan.original, acts, downloads + [check], noted, last);
    acts := acts + [noted];
  }

  method DeleteAndFinish(p: ReleaseService, plan: NormPlan, projected: seq<Asset>, checksumID: int)
    returns (ok: bool, ghost acts: seq<Event>)
    requires Sane(plan) && Recoverable(p.honest, p.env, p.remote, p.stored, plan)
    modifies p
    ensures p.trace == old(p.trace) + acts
    ensures Conforms(p.env, plan.original, acts, DeleteScript(plan, projected, checksumID))
    ensures ok ==> Completes(p.env, plan.original, acts, DeleteScript(plan, projected, checksumID))
    ensures !ok ==> Stops(acts)
    ensures Recoverable(p.honest, p.env, p.remote, p.stored, plan)
  {
    hide Sane, Recoverable, Conforms, Completes, PublicPart, Deletions, Finishing;
    ghost var first, second, third :=
      PublicPart(plan, projected), Deletions(plan, checksumID, |plan.remove|), Finishing(plan, projected, checksumID);
    ghost var more;
    ok, acts := PublicParity(p, plan, projected);
    ConformsLonger(p.env, plan.original, acts, first, second + third);
    if !ok {
      return;
    }
    ok, more := DeleteAll(p, plan, checksumID);
    ConformsThen(p.env, plan.original, acts, first, more, second);
    acts := acts + more;
    ConformsLonger(p.env, plan.original, acts, first + second, third);
    assert first + second + third == DeleteScript(plan, projected, checksumID);
    if !ok {
      return;
    }
    ok, more := Finish(p, plan, projected, checksumID);
    ConformsThen(p.env, plan.original, acts, first + second, more, third);
    acts := acts + more;
  }

  // ---------------------------------------------------------------- one run

  /** Readback of the prestate, its digest against the approval, and the journal. */
  method Prepare(p: ReleaseService, journals: Journals, plan: NormPlan, deleting: bool, approved: State -> bool,
                 path: string)
    returns (ok: bool, checksumID: int, ghost acts: seq<Event>)
    modifies p`step, p`trace, journals
    ensures p.trace == old(p.trace) + acts
    ensures Conforms(p.env, plan.original, acts, Preflight(plan, deleting, path))
    ensures ok ==> Completes(p.env, plan.original, acts, Preflight(plan, deleting, path))
    ensures !ok ==> Stops(acts) || (|acts| == 1 && acts[0].Read? && acts[0].state.Some? && !approved(acts[0].state.value))
    ensures ok ==> Proven(p.honest, p.env, p.remote, p.stored, plan, plan.originals, deleting)
    ensures ok ==> approved(acts[0].state.value)
    ensures ok && deleting && plan.checksum.name == CHECKSUMS ==>
              Identified(acts[0].state.value.release.value.assets, Identity(CHECKSUMS, checksumID))
    ensures old(journals.files) <= journals.files
    ensures OpenJournal(path, true) in acts ==> path !in old(journals.files) && path in journals.files
  {
    hide Expected, PinOf, PinHolds, Sound, Present, Metadata;
    checksumID := 0;
    ghost var e;
    var state;
    ok, state, e := ReadbackInventory(p, plan, plan.originals, deleting, None);
    acts := [e];
    if !ok {
      return;
    }
    if !approved(state.value) {
      return false, checksumID, acts;
    }
    ok := journals.Open(path);
    p.NoteJournal(path, ok);
    acts := acts + [OpenJournal(path, ok)];
    if ok && deleting {
      MetadataHasRelease(p.env, state.value, plan.original, plan.releaseID, false);
      checksumID := ChecksumID(state.value.release.value.assets);
      ChecksumAccepted(p.env, state.value, e.downloads, plan, plan.originals);
    }
  }

  lemma MetadataHasRelease(env: Primitives, s: State, plan: Plan, id: int, draft: bool)
    requires Metadata(env, s, plan, id, draft)
    ensures s.release.Some?
  {
  }

  lemma ChecksumAccepted(env: Primitives, s: State, read: Downloads, plan: NormPlan, remaining: seq<NormAsset>)
    requires Exactly(env, s, read, plan, remaining, true)
    ensures plan.checksum.name in RemoteNames(s.release.value.assets)
  {
    hide Sound, Metadata, Holds;
    assert Expected(plan, remaining, true)[|remaining|] == plan.checksum;
    PresentName(env, s.release.value.assets, read, plan.checksum);
  }

  /**
   executeNormalization: validates the plan, then uploads the checksum asset or deletes the additional ones.
   Whatever the provider does the run follows its script; an honest provider is left in the plan's family.
   */
  method ExecuteNormalization(p: ReleaseService, journals: Journals, plan: NormPlan, bound: bool, legacy: seq<Asset>,
                              projected: seq<Asset>, scope: Scope, deleting: bool, approved: State -> bool, path: string)
    returns (ok: bool, checksumID: int, ghost acts: seq<Event>)
    requires Distinct(Names(legacy)) && (forall a :: a in legacy ==> a.name != CHECKSUMS)
    requires exists c :: c in projected && c.name == CHECKSUMS
    modifies p, journals
    ensures p.trace == old(p.trace) + acts
    ensures Conforms(p.env, plan.original, acts, Script(plan, deleting, projected, path, checksumID))
    ensures ok ==> Completes(p.env, plan.original, acts, Script(plan, deleting, projected, path, checksumID))
    ensures ok && deleting ==> P.ReadAfterWrites(acts, projected)
    ensures !ok ==> || Stops(acts)
                    || (|acts| == 1 && acts[0].Read? && acts[0].state.Some? && !approved(acts[0].state.value))
                    || (acts == [] && !(bound && |legacy| == scope.total && InScope(plan, scope)
                                        && Valid(plan, legacy, projected)))
    ensures acts != [] ==> Valid(plan, legacy, projected) && Sane(plan)
    ensures p.honest && !(p.remote == old(p.remote) && p.stored == old(p.stored)) ==>
              InFamily(p.env, p.remote, p.stored, plan)
    ensures old(journals.files) <= journals.files
    ensures OpenJournal(path, true) in acts ==> path !in old(journals.files) && path in journals.files
  {
    hide Valid, Sane, Conforms, Completes, Script, InFamily, P.ReadAfterWrites;
    acts, checksumID := [], 0;
    P.NothingYet(p.env, plan.original);
    ghost var whole := Script(plan, deleting, projected, path, checksumID);
    P.CompletesConforms(p.env, plan.original, [], []);
    ConformsLonger(p.env, plan.original, [], [], whole);
    assert [] + whole == whole;
    ok := ValidateNormalization(plan, bound, legacy, projected, scope);
    if !ok {
      return;
    }
    ghost var c :| c in projected && c.name == CHECKSUMS;
    ValidIsSane(plan, legacy, projected, c);
    ok, checksumID, acts := RunValidated(p, journals, plan, projected, deleting, approved, path);
    if ok && deleting {
      CompletedDeleteIsRead(p.env, plan, projected, path, checksumID, acts);
    }
  }

  /** The run of a validated plan. */
  method RunValidated(p: ReleaseService, journals: Journals, plan: NormPlan, projected: seq<Asset>, deleting: bool,
                      approved: State -> bool, path: string)
    returns (ok: bool, checksumID: int, ghost acts: seq<Event>)
    requires Sane(plan)
    modifies p, journals
    ensures p.trace == old(p.trace) + acts
    ensures Conforms(p.env, plan.original, acts, Script(plan, deleting, projected, path, checksumID))
    ensures ok ==> Completes(p.env, plan.original, acts, Script(plan, deleting, projected, path, checksumID))
    ensures !ok ==> || Stops(acts)
                    || (|acts| == 1 && acts[0].Read? && acts[0].state.Some? && !approved(acts[0].state.value))
    ensures p.honest && !(p.remote == old(p.remote) && p.stored == old(p.stored)) ==>
              InFamily(p.env, p.remote, p.stored, plan)
    ensures old(journals.files) <= journals.files
    ensures OpenJournal(path, true) in acts ==> path !in old(journals.files) && path in journals.files
  {
    hide Sane, Conforms, Completes, Preflight, DeleteScript, Uploading, InFamily, Exactly, Identified;
    ok, checksumID, acts := Prepare(p, journals, plan, deleting, approved, path);
    ghost var head := Preflight(plan, deleting, path);
    ghost var tail := if deleting then DeleteScript(plan, projected, checksumID) else Uploading(plan);
    ConformsLonger(p.env, plan.original, acts, head, tail);
    if !ok {
      return;
    }
    ghost var more;
    if deleting {
      ProvenRecoverable(p.honest, p.env, p.remote, p.stored, plan, true);
      ok, more := DeleteAndFinish(p, plan, projected, checksumID);
      NoJournalInDeletes(plan, projected, checksumID, path);
    } else {
      ok, more := UploadChecksum(p, plan);
      NoJournalInUpload(plan, path);
    }
    ConformsThen(p.env, plan.original, acts, head, more, tail);
    P.NoJournalLater(p.env, plan.original, more, tail, path);
    acts := acts + more;
  }

  lemma NoJournalInUpload(plan: NormPlan, path: string)
    ensures OpenJournal(path, true) !in Uploading(plan)
  {
  }

  lemma NoJournalInDeletes(plan: NormPlan, projected: seq<Asset>, checksumID: int, path: string)
    ensures OpenJournal(path, true) !in DeleteScript(plan, projected, checksumID)
  {
    P.NoJournalInReads(projected, |projected|, path);
    NoJournalInDeletions(plan, checksumID, |plan.remove|, path);
  }

  lemma {:induction false} NoJournalInDeletions(plan: NormPlan, checksumID: int, n: nat, path: string)
    requires n <= |plan.remove|
    ensures OpenJournal(path, true) !in Deletions(plan, checksumID, n)
  {
    hide DeleteOne;
    if n > 0 {
      NoJournalInDeletions(plan, checksumID, n - 1, path);
      NoJournalInDeletion(plan, checksumID, n - 1, path);
    }
  }

  lemma NoJournalInDeletion(plan: NormPlan, checksumID: int, i: nat, path: string)
    requires i < |plan.remove|
    ensures OpenJournal(path, true) !in DeleteOne(plan, checksumID, i)
  {
  }

  // ---------------------------------------------------------------- what a delete run dispatches

  function DeleteWrites(remove: seq<NormAsset>, n: nat): seq<P.Write>
    requires n <= |remove|
    ensures |DeleteWrites(remove, n)| == n
    ensures forall i :: 0 <= i < n ==> DeleteWrites(remove, n)[i] == P.DeleteWrite(remove[i].id)
  {
    if n == 0 then [] else DeleteWrites(remove, n - 1) + [P.DeleteWrite(remove[n - 1].id)]
  }

  lemma OneDeletionIs(plan: NormPlan, checksumID: int, i: nat)
    requires i < |plan.remove|
    ensures var s := DeleteOne(plan, checksumID, i);
            P.Writes(s) == [P.DeleteWrite(plan.remove[i].id)] && P.Announced(s) && P.AllOk(s)
  {
    hide Check;
    var s := DeleteOne(plan, checksumID, i);
    CheckIsRead(plan, Remaining(plan, i), true, Some(checksumID));
    CheckIsRead(plan, Remaining(plan, i + 1), true, Some(checksumID));
    P.FourWrites(s[0], s[1], s[2], s[3]);
  }

  lemma CheckIsRead(plan: NormPlan, remaining: seq<NormAsset>, withChecksum: bool, checksumID: Option<int>)
    ensures Check(plan, remaining, withChecksum, checksumID).Read? && Check(plan, remaining, withChecksum, checksumID).ok
  {
  }

  lemma {:induction false} DeletionsAre(plan: NormPlan, checksumID: int, n: nat)
    requires n <= |plan.remove|
    ensures var s := Deletions(plan, checksumID, n);
            P.Writes(s) == DeleteWrites(plan.remove, n) && P.Announced(s) && P.AllOk(s)
  {
    hide DeleteOne, P.Writes, P.Announced, P.AllOk;
    if n == 0 {
      QuietIs([]);
    } else {
      var before, s := Deletions(plan, checksumID, n - 1), DeleteOne(plan, checksumID, n - 1);
      DeletionsAre(plan, checksumID, n - 1);
      OneDeletionIs(plan, checksumID, n - 1);
      P.WritesThen(before, s);
      P.AnnouncedThen(before, s);
      AllOkThen(before, s);
    }
  }

  lemma AllOkThen(a: seq<Event>, b: seq<Event>)
    requires P.AllOk(a) && P.AllOk(b)
    ensures P.AllOk(a + b)
  {
  }

  /** A part without dispatched writes. */
  ghost predicate Quiet(s: seq<Event>) {
    forall k :: 0 <= k < |s| ==> s[k].ok && P.WriteOf(s[k]).None?
  }

  lemma {:induction false} QuietIs(s: seq<Event>)
    requires Quiet(s)
    ensures P.Writes(s) == [] && P.Announced(s) && P.AllOk(s)
  {
    if s != [] {
      QuietIs(s[..|s| - 1]);
    }
  }

  lemma {:induction false} ReadsAreQuiet(assets: seq<Asset>, n: nat)
    requires n <= |assets|
    ensures Quiet(P.PublicReads(assets, n))
  {
    if n > 0 {
      ReadsAreQuiet(assets, n - 1);
    }
  }

  lemma QuietEnds(plan: NormPlan, projected: seq<Asset>, path: string, checksumID: int)
    ensures Quiet(Preflight(plan, true, path)) && Quiet(PublicPart(plan, projected))
    ensures Quiet(Finishing(plan, projected, checksumID))
  {
    ReadsAreQuiet(projected, |projected|);
  }

  lemma DeleteScriptIs(plan: NormPlan, projected: seq<Asset>, path: string, checksumID: int)
    ensures var s := Script(plan, true, projected, path, checksumID);
            P.Writes(s) == DeleteWrites(plan.remove, |plan.remove|) && P.Announced(s) && P.AllOk(s)
  {
    hide Quiet, Preflight, PublicPart, Deletions, Finishing, P.Writes, P.Announced, P.AllOk, DeleteWrites;
    var a, b := Preflight(plan, true, path), PublicPart(plan, projected);
    var c, d := Deletions(plan, checksumID, |plan.remove|), Finishing(plan, projected, checksumID);
    QuietEnds(plan, projected, path, checksumID);
    QuietIs(a);
    QuietIs(b);
    QuietIs(d);
    DeletionsAre(plan, checksumID, |plan.remove|);
    Joined(c, d);
    Joined(b, c + d);
    Joined(a, b + (c + d));
  }

  lemma Joined(a: seq<Event>, b: seq<Event>)
    requires P.Announced(a) && P.AllOk(a)
    requires P.Announced(b) && P.AllOk(b)
    ensures P.Announced(a + b) && P.AllOk(a + b)
    ensures P.Writes(a + b) == P.Writes(a) + P.Writes(b)
  {
    hide P.Announced, P.AllOk, P.Writes;
    P.WritesThen(a, b);
    P.AnnouncedThen(a, b);
    AllOkThen(a, b);
  }

  /** A delete run opens with the readback, the journal, one download of every projected asset and the note of it. */
  lemma DeleteOpeningAt(plan: NormPlan, projected: seq<Asset>, path: string, checksumID: int)
    ensures var s, n := Script(plan, true, projected, path, checksumID), |projected|;
            && |s| > 2 + n && s[0] == Check(plan, plan.originals, true, None) && s[1] == OpenJournal(path, true)
            && (forall i :: 0 <= i < n ==> s[2 + i] == PublicRead(projected[i], true))
            && s[2 + n] == Intent("NORMALIZATION_PUBLIC_READBACK", Named("VERIFIED_FIVE_ASSETS_BEFORE_DELETE"),
                                  plan.releaseID, true)
  {
    hide Deletions, Finishing, P.PublicReads, Check, Preflight, PublicPart;
    var s, n := Script(plan, true, projected, path, checksumID), |projected|;
    PublicPartAt(plan, projected);
    PreflightAt(plan, path);
    assert s[..2] == Preflight(plan, true, path) && s[2..3 + n] == PublicPart(plan, projected);
    assert s[0] == s[..2][0] && s[1] == s[..2][1];
    forall i | 0 <= i <= n ensures s[2 + i] == PublicPart(plan, projected)[i] {
      assert s[2..3 + n][i] == s[2 + i];
    }
  }

  lemma PreflightAt(plan: NormPlan, path: string)
    ensures var s := Preflight(plan, true, path);
            |s| == 2 && s[0] == Check(plan, plan.originals, true, None) && s[1] == OpenJournal(path, true)
  {
    hide Check;
  }

  lemma PublicPartAt(plan: NormPlan, projected: seq<Asset>)
    ensures var s, n := PublicPart(plan, projected), |projected|;
            && |s| == n + 1 && (forall i :: 0 <= i < n ==> s[i] == PublicRead(projected[i], true))
            && s[n] == Intent("NORMALIZATION_PUBLIC_READBACK", Named("VERIFIED_FIVE_ASSETS_BEFORE_DELETE"),
                              plan.releaseID, true)
  {
    hide P.PublicReads;
    P.PublicReadsAt(projected, |projected|);
  }

  /** Deletions come after all of that. */
  lemma PublicFirst(plan: NormPlan, projected: seq<Asset>, path: string, checksumID: int)
    ensures var s := Script(plan, true, projected, path, checksumID);
            forall k :: 0 <= k < |s| && s[k].Delete? ==> k > 2 + |projected|
  {
    hide Script, Check;
    var s := Script(plan, true, projected, path, checksumID);
    DeleteOpeningAt(plan, projected, path, checksumID);
    CheckIsRead(plan, plan.originals, true, None);
    forall k | 0 <= k <= 2 + |projected| ensures !s[k].Delete? {
      if 2 <= k < 2 + |projected| {
        assert s[2 + (k - 2)] == PublicRead(projected[k - 2], true);
      }
    }
  }

  /**
   Whatever the provider does: a delete run dispatches a prefix of the planned deletions, in order, each announced
   by its own intent, after every projected asset was downloaded and the public readback noted, and right after a
   readback that accepted exactly the originals minus the deletions so far, plus the checksum, under the recorded
   ids. Nothing follows an error.
   */
  lemma EveryDeleteRun(env: Primitives, plan: NormPlan, projected: seq<Asset>, path: string, checksumID: int,
                       acts: seq<Event>)
    requires Conforms(env, plan.original, acts, Script(plan, true, projected, path, checksumID))
    ensures P.Writes(acts) <= DeleteWrites(plan.remove, |plan.remove|)
    ensures P.Announced(acts) && forall k :: 0 <= k < |acts| - 1 ==> acts[k].ok
    ensures forall k :: 0 <= k < |acts| && P.WriteOf(acts[k]).Some? ==>
              acts[k].Delete? && DeletionAt(env, plan, projected, acts, checksumID, k)
  {
    hide Script, Conforms, P.Announced, P.Writes, P.WriteOf, DeletionAt, P.AllOk, DeleteWrites;
    var script := Script(plan, true, projected, path, checksumID);
    DeleteScriptIs(plan, projected, path, checksumID);
    P.ConformingWrites(env, plan.original, acts, script);
    P.ConformingAnnounced(env, plan.original, acts, script);
    AllOkMeans(script);
    P.ConformingStops(env, plan.original, acts, script);
    forall k | 0 <= k < |acts| && P.WriteOf(acts[k]).Some?
      ensures acts[k].Delete? && DeletionAt(env, plan, projected, acts, checksumID, k)
    {
      WritesAreDeletions(env, plan, projected, path, checksumID, acts, k);
      DeletionIsChecked(env, plan, projected, path, checksumID, acts, k);
    }
  }

  lemma WritesAreDeletions(env: Primitives, plan: NormPlan, projected: seq<Asset>, path: string, checksumID: int,
                           acts: seq<Event>, k: nat)
    requires Conforms(env, plan.original, acts, Script(plan, true, projected, path, checksumID))
    requires k < |acts| && P.WriteOf(acts[k]).Some?
    ensures acts[k].Delete?
  {
    hide Script, Conforms, Carries, Fails;
    var script := Script(plan, true, projected, path, checksumID);
    P.ConformsAt(env, plan.original, acts, script, k);
    P.SameWrite(env, plan.original, acts[k], script[k]);
    OnlyDeletions(plan, projected, path, checksumID);
  }

  lemma AllOkMeans(s: seq<Event>)
    requires P.AllOk(s)
    ensures forall k :: 0 <= k < |s| ==> s[k].ok
  {
  }

  /** Every projected asset was read back publicly and noted first, and what is deleted from was just proved. */
  ghost predicate DeletionAt(env: Primitives, plan: NormPlan, projected: seq<Asset>, acts: seq<Event>, checksumID: int,
                             k: nat)
    requires k < |acts| && acts[k].Delete?
  {
    && (forall a :: a in projected ==> exists j :: 0 <= j < k && acts[j] == PublicRead(a, true))
    && (exists j :: 0 <= j < k && acts[j] == PublicNote(plan))
    && exists i :: 0 <= i < |plan.remove| && DeletePlace(env, plan, |projected|, acts, checksumID, k, i)
  }

  /** The i-th deletion: dispatched in its place, behind the readback of what remains and its own intent. */
  ghost predicate DeletePlace(env: Primitives, plan: NormPlan, n: nat, acts: seq<Event>, checksumID: int, k: nat, i: nat)
    requires k < |acts| && i < |plan.remove|
  {
    && k == 5 + n + 4 * i
    && (acts[k] == Delete(plan.remove[i].id, true) || acts[k] == Delete(plan.remove[i].id, false))
    && acts[k - 1] == Intent("NORMALIZATION_DELETE", DeleteAsset(plan.remove[i].id), plan.releaseID, true)
    && ProvedLeft(env, plan, acts[k - 2], checksumID, i)
  }

  /** The readback found exactly the originals without the first i deletions, and the checksum under its id. */
  ghost predicate ProvedLeft(env: Primitives, plan: NormPlan, read: Event, checksumID: int, i: nat)
    requires i <= |plan.remove|
  {
    && read.Read? && read.ok && read.id == plan.releaseID && read.state.Some?
    && Exactly(env, read.state.value, read.downloads, plan, Remaining(plan, i), true)
    && Identified(read.state.value.release.value.assets, Identity("SHA256SUMS", checksumID))
  }

  lemma CheckProves(env: Primitives, plan: NormPlan, e: Event, checksumID: int, i: nat)
    requires i <= |plan.remove| && Carries(env, plan.original, e, Check(plan, Remaining(plan, i), true, Some(checksumID)))
    ensures ProvedLeft(env, plan, e, checksumID, i)
  {
    hide Accepts, Identified;
    var remaining := Remaining(plan, i);
    PinWeaker(e.state.value, plan, remaining, checksumID);
    assert PinOf(plan, remaining, Some(checksumID)).ids[|remaining|] == Identity(CHECKSUMS, checksumID);
    AcceptedHasRelease(env, e.state.value, e.downloads, plan.original, plan.releaseID, Expected(plan, remaining, true));
  }

  lemma AcceptedHasRelease(env: Primitives, s: State, read: Downloads, plan: Plan, id: int, assets: seq<Asset>)
    requires Accepts(env, s, read, plan, id, false, assets)
    ensures s.release.Some?
  {
  }

  /** The i-th deletion takes four steps of the script: check, note, deletion, check. */
  ghost predicate DeleteStepAt(s: seq<Event>, at: nat, plan: NormPlan, checksumID: int, i: nat)
    requires i < |plan.remove|
  {
    && at + 4 <= |s| && s[at] == Check(plan, Remaining(plan, i), true, Some(checksumID))
    && s[at + 1] == Intent("NORMALIZATION_DELETE", DeleteAsset(plan.remove[i].id), plan.releaseID, true)
    && s[at + 2] == Delete(plan.remove[i].id, true)
    && s[at + 3] == Check(plan, Remaining(plan, i + 1), true, Some(checksumID))
  }

  lemma {:induction false} DeletionsAt(plan: NormPlan, checksumID: int, n: nat)
    requires n <= |plan.remove|
    ensures |Deletions(plan, checksumID, n)| == 4 * n
    ensures forall i :: 0 <= i < n ==> DeleteStepAt(Deletions(plan, checksumID, n), 4 * i, plan, checksumID, i)
  {
    hide Check, Remaining;
    if n > 0 {
      DeletionsAt(plan, checksumID, n - 1);
      var before, all := Deletions(plan, checksumID, n - 1), Deletions(plan, checksumID, n);
      forall i | 0 <= i < n ensures DeleteStepAt(all, 4 * i, plan, checksumID, i) {
        if i < n - 1 {
          assert DeleteStepAt(before, 4 * i, plan, checksumID, i);
        }
      }
    }
  }

  /** How a delete run ends: every projected asset again, the final readback and its note. */
  lemma DeleteEndAt(plan: NormPlan, projected: seq<Asset>, path: string, checksumID: int)
    ensures var s, n := Script(plan, true, projected, path, checksumID), |projected|;
            var at := 3 + n + 4 * |plan.remove|;
            && |s| == at + n + 2 && (forall i :: 0 <= i < n ==> s[at + i] == PublicRead(projected[i], true))
            && s[at + n] == Check(plan, plan.retain, true, Some(checksumID))
            && s[at + n + 1] == Intent("NORMALIZATION_READBACK", Named("VERIFIED_FIVE_ASSET_RELEASE"), plan.releaseID, true)
            && forall i :: 0 <= i < |plan.remove| ==> DeleteStepAt(s, 3 + n + 4 * i, plan, checksumID, i)
  {
    hide Deletions, P.PublicReads, Check, Remaining, DeleteStepAt, Preflight;
    P.PublicReadsAt(projected, |projected|);
    DeletionsAt(plan, checksumID, |plan.remove|);
    var head, deletions := Preflight(plan, true, path) + PublicPart(plan, projected), Deletions(plan, checksumID, |plan.remove|);
    var last, s := Finishing(plan, projected, checksumID), Script(plan, true, projected, path, checksumID);
    PreflightIsTwo(plan, path);
    assert s == head + deletions + last;
    forall i | 0 <= i < |plan.remove| ensures DeleteStepAt(s, 3 + |projected| + 4 * i, plan, checksumID, i) {
      StepInside(head, deletions, last, 4 * i, plan, checksumID, i);
    }
  }

  lemma PreflightIsTwo(plan: NormPlan, path: string)
    ensures |Preflight(plan, true, path)| == 2
  {
  }

  lemma StepInside(head: seq<Event>, s: seq<Event>, last: seq<Event>, at: nat, plan: NormPlan, checksumID: int, i: nat)
    requires i < |plan.remove| && DeleteStepAt(s, at, plan, checksumID, i)
    ensures DeleteStepAt(head + s + last, |head| + at, plan, checksumID, i)
  {
    hide Check, Remaining;
    var all := head + s + last;
    assert all[|head|..|head| + |s|] == s;
    forall j | 0 <= j < |s| ensures all[|head| + j] == s[j] {
    }
  }

  lemma DeletePlaces(plan: NormPlan, projected: seq<Asset>, path: string, checksumID: int, k: nat)
    requires k < |Script(plan, true, projected, path, checksumID)|
    requires Script(plan, true, projected, path, checksumID)[k].Delete?
    ensures exists i :: 0 <= i < |plan.remove| && k == 5 + |projected| + 4 * i
                        && DeleteStepAt(Script(plan, true, projected, path, checksumID), k - 2, plan, checksumID, i)
  {
    hide Script, Check, Remaining;
    var s, n := Script(plan, true, projected, path, checksumID), |projected|;
    var at := 3 + n + 4 * |plan.remove|;
    PublicFirst(plan, projected, path, checksumID);
    DeleteEndAt(plan, projected, path, checksumID);
    CheckIsRead(plan, plan.retain, true, Some(checksumID));
    forall j | at <= j < at + n ensures !s[j].Delete? {
      assert s[at + (j - at)] == PublicRead(projected[j - at], true);
    }
    var i := (k - 3 - n) / 4;
    assert 0 <= i < |plan.remove| && DeleteStepAt(s, 3 + n + 4 * i, plan, checksumID, i);
    CheckIsRead(plan, Remaining(plan, i), true, Some(checksumID));
    CheckIsRead(plan, Remaining(plan, i + 1), true, Some(checksumID));
  }

  ghost predicate OnlyDeletes(s: seq<Event>) {
    forall k :: 0 <= k < |s| ==> P.WriteOf(s[k]).None? || s[k].Delete?
  }

  lemma OnlyDeletesThen(a: seq<Event>, b: seq<Event>)
    requires OnlyDeletes(a) && OnlyDeletes(b)
    ensures OnlyDeletes(a + b)
  {
  }

  lemma QuietDeletesNothing(s: seq<Event>)
    requires Quiet(s)
    ensures OnlyDeletes(s)
  {
  }

  lemma {:induction false} DeletionsOnly(plan: NormPlan, checksumID: int, n: nat)
    requires n <= |plan.remove|
    ensures OnlyDeletes(Deletions(plan, checksumID, n))
  {
    if n > 0 {
      hide Check, Remaining;
      DeletionsOnly(plan, checksumID, n - 1);
      CheckIsRead(plan, Remaining(plan, n - 1), true, Some(checksumID));
      CheckIsRead(plan, Remaining(plan, n), true, Some(checksumID));
      OnlyDeletesThen(Deletions(plan, checksumID, n - 1), DeleteOne(plan, checksumID, n - 1));
    }
  }

  lemma OnlyDeletions(plan: NormPlan, projected: seq<Asset>, path: string, checksumID: int)
    ensures OnlyDeletes(Script(plan, true, projected, path, checksumID))
  {
    hide OnlyDeletes, Quiet, Preflight, PublicPart, Deletions, Finishing;
    var a, b := Preflight(plan, true, path), PublicPart(plan, projected);
    var c, d := Deletions(plan, checksumID, |plan.remove|), Finishing(plan, projected, checksumID);
    QuietEnds(plan, projected, path, checksumID);
    QuietDeletesNothing(a);
    QuietDeletesNothing(b);
    DeletionsOnly(plan, checksumID, |plan.remove|);
    QuietDeletesNothing(d);
    OnlyDeletesThen(c, d);
    OnlyDeletesThen(b, c + d);
    OnlyDeletesThen(a, b + (c + d));
  }

  lemma ReadBefore(env: Primitives, plan: NormPlan, projected: seq<Asset>, path: string, checksumID: int,
                   acts: seq<Event>, k: nat)
    requires Conforms(env, plan.original, acts, Script(plan, true, projected, path, checksumID))
    requires 2 + |projected| <= k < |acts|
    ensures forall a :: a in projected ==> exists j :: 0 <= j < k && acts[j] == PublicRead(a, true)
  {
    hide Script, Conforms, Carries, Fails;
    var script := Script(plan, true, projected, path, checksumID);
    DeleteOpeningAt(plan, projected, path, checksumID);
    P.ConformsAt(env, plan.original, acts, script, k);
    forall a | a in projected ensures exists j :: 0 <= j < k && acts[j] == PublicRead(a, true) {
      var i :| 0 <= i < |projected| && projected[i] == a;
      assert acts[2 + i] == script[2 + i];
    }
  }

  lemma DeletionIsChecked(env: Primitives, plan: NormPlan, projected: seq<Asset>, path: string, checksumID: int,
                          acts: seq<Event>, k: nat)
    requires Conforms(env, plan.original, acts, Script(plan, true, projected, path, checksumID))
    requires k < |acts| && acts[k].Delete?
    ensures DeletionAt(env, plan, projected, acts, checksumID, k)
  {
    hide Script, Conforms, Accepts, DeleteStepAt, DeletePlace;
    var script := Script(plan, true, projected, path, checksumID);
    P.ConformsAt(env, plan.original, acts, script, k);
    assert script[k].Delete?;
    DeletePlaces(plan, projected, path, checksumID, k);
    var i :| 0 <= i < |plan.remove| && k == 5 + |projected| + 4 * i && DeleteStepAt(script, k - 2, plan, checksumID, i);
    DeleteOpeningAt(plan, projected, path, checksumID);
    assert acts[2 + |projected|] == PublicNote(plan);
    ReadBefore(env, plan, projected, path, checksumID, acts, k);
    PlacedDeletion(env, plan, acts, script, |projected|, checksumID, k, i);
  }

  lemma PlacedDeletion(env: Primitives, plan: NormPlan, acts: seq<Event>, script: seq<Event>, n: nat, checksumID: int,
                       k: nat, i: nat)
    requires Conforms(env, plan.original, acts, script) && i < |plan.remove| && k < |acts| && k == 5 + n + 4 * i
    requires DeleteStepAt(script, k - 2, plan, checksumID, i)
    ensures DeletePlace(env, plan, n, acts, checksumID, k, i)
  {
    hide Accepts, PinHolds, ProvedLeft, Remaining;
    CheckIsRead(plan, Remaining(plan, i), true, Some(checksumID));
    CheckProves(env, plan, acts[k - 2], checksumID, i);
  }

  /** No id is deleted twice in one run. */
  lemma EachDeletedOnce(env: Primitives, plan: NormPlan, projected: seq<Asset>, path: string, checksumID: int,
                        acts: seq<Event>)
    requires Conforms(env, plan.original, acts, Script(plan, true, projected, path, checksumID)) && Sane(plan)
    ensures Distinct(P.Writes(acts))
    ensures forall j, k :: 0 <= j < k < |acts| && acts[j].Delete? && acts[k].Delete? ==> acts[j].assetId != acts[k].assetId
  {
    hide Conforms, Script, P.Writes, P.Announced, DeletionAt, Canonical, Ascending;
    EveryDeleteRun(env, plan, projected, path, checksumID, acts);
    var w := P.Writes(acts);
    forall i, j | 0 <= i < j < |w| ensures w[i] != w[j] {
      assert w[i] == P.DeleteWrite(plan.remove[i].id) && w[j] == P.DeleteWrite(plan.remove[j].id);
    }
    forall j, k | 0 <= j < k < |acts| && acts[j].Delete? && acts[k].Delete? ensures acts[j].assetId != acts[k].assetId {
      assert DeletionAt(env, plan, projected, acts, checksumID, j) && DeletionAt(env, plan, projected, acts, checksumID, k);
      DifferentIds(env, plan, projected, acts, checksumID, j, k);
    }
  }

  lemma DifferentIds(env: Primitives, plan: NormPlan, projected: seq<Asset>, acts: seq<Event>, checksumID: int, j: nat,
                     k: nat)
    requires DistinctIds(plan.remove) && j < k < |acts| && acts[j].Delete? && acts[k].Delete?
    requires DeletionAt(env, plan, projected, acts, checksumID, j) && DeletionAt(env, plan, projected, acts, checksumID, k)
    ensures acts[j].assetId != acts[k].assetId
  {
    hide ProvedLeft;
  }

  // ---------------------------------------------------------------- completed runs, step by step

  /** The readback proved the prestate: all originals, with the checksum asset or without it. */
  ghost predicate ProvedAll(env: Primitives, plan: NormPlan, e: Event, withChecksum: bool) {
    && e.Read? && e.ok && e.id == plan.releaseID && e.state.Some?
    && Exactly(env, e.state.value, e.downloads, plan, plan.originals, withChecksum)
  }

  /** Every planned deletion was made, in order, between a readback of what was there and one of what is left. */
  ghost predicate AllDeleted(env: Primitives, plan: NormPlan, acts: seq<Event>, at: nat, checksumID: int) {
    && |acts| >= at + 4 * |plan.remove|
    && forall i :: 0 <= i < |plan.remove| ==> DeletedAt(env, plan, acts, at + 4 * i, checksumID, i)
  }

  ghost predicate DeletedAt(env: Primitives, plan: NormPlan, acts: seq<Event>, at: nat, checksumID: int, i: nat)
    requires i < |plan.remove|
  {
    && at + 4 <= |acts| && ProvedLeft(env, plan, acts[at], checksumID, i)
    && acts[at + 1] == Intent("NORMALIZATION_DELETE", DeleteAsset(plan.remove[i].id), plan.releaseID, true)
    && acts[at + 2] == Delete(plan.remove[i].id, true) && ProvedLeft(env, plan, acts[at + 3], checksumID, i + 1)
  }

  /** One download of every projected asset, from step at on. */
  ghost predicate AllRead(projected: seq<Asset>, acts: seq<Event>, at: nat) {
    |acts| >= at + |projected| && forall i :: 0 <= i < |projected| ==> acts[at + i] == PublicRead(projected[i], true)
  }

  lemma CarriedCheck(env: Primitives, plan: NormPlan, acts: seq<Event>, script: seq<Event>, k: nat, checksumID: int, i: nat)
    requires Completes(env, plan.original, acts, script) && k < |script| && i <= |plan.remove|
    requires script[k] == Check(plan, Remaining(plan, i), true, Some(checksumID))
    ensures |acts| == |script| && ProvedLeft(env, plan, acts[k], checksumID, i)
  {
    CheckProves(env, plan, acts[k], checksumID, i);
  }

  /**
   A completed delete run: the prestate proved, the journal opened, every projected asset downloaded and noted, every
   planned asset deleted, every projected asset downloaded again, the retained inventory proved and noted.
   */
  lemma CompletedDelete(env: Primitives, plan: NormPlan, projected: seq<Asset>, path: string, checksumID: int,
                        acts: seq<Event>)
    requires Completes(env, plan.original, acts, Script(plan, true, projected, path, checksumID)) && Sane(plan)
    ensures var n, at := |projected|, 3 + |projected| + 4 * |plan.remove|;
            && |acts| == at + n + 2 && ProvedAll(env, plan, acts[0], true) && acts[1] == OpenJournal(path, true)
            && AllRead(projected, acts, 2)
            && acts[2 + n] == Intent("NORMALIZATION_PUBLIC_READBACK", Named("VERIFIED_FIVE_ASSETS_BEFORE_DELETE"),
                                     plan.releaseID, true)
            && AllDeleted(env, plan, acts, 3 + n, checksumID) && AllRead(projected, acts, at)
            && ProvedLeft(env, plan, acts[at + n], checksumID, |plan.remove|)
            && acts[at + n + 1] == Intent("NORMALIZATION_READBACK", Named("VERIFIED_FIVE_ASSET_RELEASE"),
                                          plan.releaseID, true)
  {
    hide Completes, Script, Sane, ProvedAll, ProvedLeft, Accepts, Remaining, DeleteStepAt, DeletedAt;
    var script, n, at := Script(plan, true, projected, path, checksumID), |projected|, 3 + |projected| + 4 * |plan.remove|;
    DeleteOpeningAt(plan, projected, path, checksumID);
    DeleteEndAt(plan, projected, path, checksumID);
    P.CarriedAt(env, plan.original, acts, script, 0);
    CarriedPrestate(env, plan, acts, script, true);
    P.CarriedAt(env, plan.original, acts, script, 1);
    forall i | 0 <= i < n
      ensures acts[2 + i] == PublicRead(projected[i], true) && acts[at + i] == PublicRead(projected[i], true)
    {
      P.CarriedAt(env, plan.original, acts, script, 2 + i);
      P.CarriedAt(env, plan.original, acts, script, at + i);
    }
    P.CarriedAt(env, plan.original, acts, script, 2 + n);
    forall i | 0 <= i < |plan.remove| ensures DeletedAt(env, plan, acts, 3 + n + 4 * i, checksumID, i) {
      CarriedDeletion(env, plan, acts, script, 3 + n + 4 * i, checksumID, i);
    }
    RemainingIsRetain(plan);
    CarriedCheck(env, plan, acts, script, at + n, checksumID, |plan.remove|);
    P.CarriedAt(env, plan.original, acts, script, at + n + 1);
  }

  lemma CarriedDeletion(env: Primitives, plan: NormPlan, acts: seq<Event>, script: seq<Event>, at: nat, checksumID: int,
                        i: nat)
    requires Completes(env, plan.original, acts, script) && i < |plan.remove|
    requires DeleteStepAt(script, at, plan, checksumID, i)
    ensures DeletedAt(env, plan, acts, at, checksumID, i)
  {
    hide Completes, ProvedLeft, Remaining;
    CarriedCheck(env, plan, acts, script, at, checksumID, i);
    P.CarriedAt(env, plan.original, acts, script, at + 1);
    P.CarriedAt(env, plan.original, acts, script, at + 2);
    CarriedCheck(env, plan, acts, script, at + 3, checksumID, i + 1);
  }

  lemma CarriedPrestate(env: Primitives, plan: NormPlan, acts: seq<Event>, script: seq<Event>, withChecksum: bool)
    requires Completes(env, plan.original, acts, script) && script != []
    requires script[0] == Check(plan, plan.originals, withChecksum, None)
    ensures ProvedAll(env, plan, acts[0], withChecksum)
  {
    hide Accepts, PinHolds;
  }

  lemma CompletedDeleteIsRead(env: Primitives, plan: NormPlan, projected: seq<Asset>, path: string, checksumID: int,
                              acts: seq<Event>)
    requires Completes(env, plan.original, acts, Script(plan, true, projected, path, checksumID)) && Sane(plan)
    ensures P.ReadAfterWrites(acts, projected)
  {
    hide Completes, Script, Sane, ProvedAll, AllDeleted;
    CompletedDelete(env, plan, projected, path, checksumID, acts);
    var n, at := |projected|, 3 + |projected| + 4 * |plan.remove|;
    forall k | at <= k < |acts| ensures P.WriteOf(acts[k]).None? {
      if k < at + n {
        assert acts[at + (k - at)] == PublicRead(projected[k - at], true);
      }
    }
    assert P.NoWriteFrom(acts, at);
    forall a | a in projected ensures P.ReadFrom(acts, at, a) {
      var i :| 0 <= i < n && projected[i] == a;
      assert acts[at + i] == PublicRead(a, true);
    }
  }

  /** A completed upload run: the originals proved, the checksum asset uploaded, originals and checksum proved. */
  lemma CompletedUpload(env: Primitives, plan: NormPlan, projected: seq<Asset>, path: string, checksumID: int,
                        acts: seq<Event>)
    requires Completes(env, plan.original, acts, Script(plan, false, projected, path, checksumID))
    ensures && |acts| == 7 && ProvedAll(env, plan, acts[0], false) && acts[1] == OpenJournal(path, true)
            && acts[2] == OpenAsset(plan.checksum, true)
            && acts[3] == Intent("NORMALIZATION_UPLOAD", Named("UPLOAD_SHA256SUMS"), plan.releaseID, true)
            && acts[4] == Upload(plan.releaseID, plan.checksum, true) && ProvedAll(env, plan, acts[5], true)
            && acts[6] == Intent("NORMALIZATION_READBACK", Named("VERIFIED_CHECKSUM_UPLOAD"), plan.releaseID, true)
  {
    hide Script, Accepts, PinHolds;
    UploadScriptAt(plan, projected, path, checksumID);
    assert Carries(env, plan.original, acts[0], Check(plan, plan.originals, false, None));
    assert Carries(env, plan.original, acts[5], Check(plan, plan.originals, true, None));
  }

  // ---------------------------------------------------------------- upload runs

  /** An upload run dispatches at most the one upload, announced, after the original inventory was proved. */
  lemma EveryUploadRun(env: Primitives, plan: NormPlan, projected: seq<Asset>, path: string, checksumID: int,
                       acts: seq<Event>)
    requires Conforms(env, plan.original, acts, Script(plan, false, projected, path, checksumID))
    ensures P.Writes(acts) <= [P.UploadWrite(plan.checksum)] && P.Announced(acts)
    ensures forall k :: 0 <= k < |acts| && P.WriteOf(acts[k]).Some? ==> ChecksumPlace(env, plan, acts, path, k)
  {
    hide Conforms, Script, Uploading, P.Writes, P.Announced, ChecksumPlace;
    var script := Script(plan, false, projected, path, checksumID);
    UploadScriptIs(plan, projected, path, checksumID);
    P.ConformingWrites(env, plan.original, acts, script);
    P.ConformingAnnounced(env, plan.original, acts, script);
    forall k | 0 <= k < |acts| && P.WriteOf(acts[k]).Some? ensures ChecksumPlace(env, plan, acts, path, k) {
      ChecksumIsPlaced(env, plan, projected, path, checksumID, acts, k);
    }
  }

  lemma ChecksumIsPlaced(env: Primitives, plan: NormPlan, projected: seq<Asset>, path: string, checksumID: int,
                         acts: seq<Event>, k: nat)
    requires Conforms(env, plan.original, acts, Script(plan, false, projected, path, checksumID))
    requires k < |acts| && P.WriteOf(acts[k]).Some?
    ensures ChecksumPlace(env, plan, acts, path, k)
  {
    hide Script, Accepts, Expected, PinOf, PinHolds;
    var script := Script(plan, false, projected, path, checksumID);
    UploadScriptAt(plan, projected, path, checksumID);
    P.SameWrite(env, plan.original, acts[k], script[k]);
    assert Carries(env, plan.original, acts[0], script[0]);
  }

  lemma UploadScriptAt(plan: NormPlan, projected: seq<Asset>, path: string, checksumID: int)
    ensures var s := Script(plan, false, projected, path, checksumID);
            && |s| == 7 && s[0] == Check(plan, plan.originals, false, None) && s[1] == OpenJournal(path, true)
            && s[2] == OpenAsset(plan.checksum, true)
            && s[3] == Intent("NORMALIZATION_UPLOAD", Named("UPLOAD_SHA256SUMS"), plan.releaseID, true)
            && s[4] == Upload(plan.releaseID, plan.checksum, true) && s[5] == Check(plan, plan.originals, true, None)
            && s[6] == Intent("NORMALIZATION_READBACK", Named("VERIFIED_CHECKSUM_UPLOAD"), plan.releaseID, true)
  {
    hide Check;
  }

  /** The upload of the checksum asset: dispatched behind the proved originals, the new journal, its bytes and intent. */
  ghost predicate ChecksumPlace(env: Primitives, plan: NormPlan, acts: seq<Event>, path: string, k: nat)
    requires k < |acts|
  {
    && k == 4 && (acts[4] == Upload(plan.releaseID, plan.checksum, true) || acts[4] == Upload(plan.releaseID, plan.checksum, false))
    && ProvedAll(env, plan, acts[0], false) && acts[1] == OpenJournal(path, true) && acts[2] == OpenAsset(plan.checksum, true)
    && acts[3] == Intent("NORMALIZATION_UPLOAD", Named("UPLOAD_SHA256SUMS"), plan.releaseID, true)
  }

  lemma UploadScriptIs(plan: NormPlan, projected: seq<Asset>, path: string, checksumID: int)
    ensures var s := Script(plan, false, projected, path, checksumID);
            P.Writes(s) == [P.UploadWrite(plan.checksum)] && P.Announced(s)
  {
    hide Check;
    var s, u := Script(plan, false, projected, path, checksumID), Uploading(plan);
    CheckIsRead(plan, plan.originals, false, None);
    CheckIsRead(plan, plan.originals, true, None);
    QuietIs(s[..4]);
    QuietIs(s[5..]);
    P.WritesThen(s[..4], [s[4]]);
    P.WritesThen(s[..4] + [s[4]], s[5..]);
    assert s == s[..4] + [s[4]] + s[5..];
  }

  // ---------------------------------------------------------------- reconciliation

  function NamesOf(remote: seq<RemoteAsset>): set<string> {
    Elements(RemoteNames(remote))
  }

  /** Follows the deletions as long as their names are gone. */
  method Walk(plan: NormPlan, names: set<string>) returns (ok: bool, remaining: seq<NormAsset>, n: nat)
    ensures n <= |plan.remove| && remaining == Remaining(plan, n)
    ensures forall k :: 0 <= k < n ==> plan.remove[k].asset.name !in names
    ensures ok ==> n == |plan.remove| || plan.remove[n].asset.name in names
    ensures ok && CHECKSUMS !in names ==> n == 0
    ensures !ok ==> n < |plan.remove| && plan.remove[n].asset.name !in names && CHECKSUMS !in names
  {
    remaining := plan.originals;
    n := 0;
    while n < |plan.remove|
      invariant n <= |plan.remove| && remaining == Remaining(plan, n)
      invariant forall k :: 0 <= k < n ==> plan.remove[k].asset.name !in names
      invariant CHECKSUMS !in names ==> n == 0
    {
      if plan.remove[n].asset.name in names {
        return true, remaining, n;
      }
      if CHECKSUMS !in names {
        return false, remaining, n;
      }
      remaining := RemoveId(remaining, plan.remove[n].id);
      n := n + 1;
    }
    return true, remaining, n;
  }

  /** Any family member with these names is the one the walk arrives at. */
  lemma WalkFinds(env: Primitives, s: State, read: Downloads, plan: NormPlan, ok: bool, n: nat)
    requires Sane(plan) && n <= |plan.remove| && s.release.Some? && InFamily(env, s, read, plan)
    requires var names := NamesOf(s.release.value.assets);
             && (forall k :: 0 <= k < n ==> plan.remove[k].asset.name !in names)
             && (ok ==> n == |plan.remove| || plan.remove[n].asset.name in names)
             && (!ok ==> n < |plan.remove| && plan.remove[n].asset.name !in names && CHECKSUMS !in names)
    ensures ok
    ensures Exactly(env, s, read, plan, Remaining(plan, n), CHECKSUMS in NamesOf(s.release.value.assets))
  {
    hide Sane, Exactly;
    assert Remaining(plan, 0) == plan.originals;
    var withChecksum := !Exactly(env, s, read, plan, plan.originals, false);
    var m :| 0 <= m <= |plan.remove| && Exactly(env, s, read, plan, Remaining(plan, m), withChecksum)
             && (m == 0 || withChecksum);
    NamesTell(env, s, read, plan, m, withChecksum);
    var names := RemoteNames(s.release.value.assets);
    assert forall x :: x in NamesOf(s.release.value.assets) <==> x in names;
  }

  /** An accepted inventory is in the family, whichever member was tried. */
  lemma AcceptedIsInFamily(env: Primitives, s: State, read: Downloads, plan: NormPlan, n: nat, withChecksum: bool)
    requires n <= |plan.remove| && Exactly(env, s, read, plan, Remaining(plan, n), withChecksum)
    requires !withChecksum ==> n == 0
    ensures InFamily(env, s, read, plan)
  {
  }

  /**
   reconcileNormalization. It accepts only the family whatever the provider answers, and on an honest provider
   that answers it accepts all of it.
   */
  method Reconcile(p: ReleaseService, plan: NormPlan, bound: bool, legacy: seq<Asset>, projected: seq<Asset>,
                   scope: Scope)
    returns (ok: bool, ghost e: Option<Event>)
    requires Distinct(Names(legacy)) && (forall a :: a in legacy ==> a.name != CHECKSUMS)
    requires exists c :: c in projected && c.name == CHECKSUMS
    modifies p`step, p`trace
    ensures ok ==> && e.Some? && e.value.Read? && e.value.state.Some?
                   && InFamily(p.env, e.value.state.value, e.value.downloads, plan)
    ensures p.honest && bound && |legacy| == scope.total && InScope(plan, scope) && Valid(plan, legacy, projected)
            && p.answers(old(p.step)).state.Some? && p.answers(old(p.step) + 1).state.Some? ==>
              (ok <==> InFamily(p.env, p.remote, p.stored, plan))
  {
    hide Valid, Sane, InFamily, Exactly;
    e := None;
    ok := ValidateNormalization(plan, bound, legacy, projected, scope);
    if !ok {
      return;
    }
    ghost var c :| c in projected && c.name == CHECKSUMS;
    ValidIsSane(plan, legacy, projected, c);
    var state := p.InspectState();
    if state.None? || state.value.release.None? {
      FamilyHasRelease(p.env, p.remote, p.stored, plan);
      return false, e;
    }
    var names := NamesOf(state.value.release.value.assets);
    var remaining, n;
    ok, remaining, n := Walk(plan, names);
    if p.honest && InFamily(p.env, p.remote, p.stored, plan) {
      WalkFinds(p.env, p.remote, p.stored, plan, ok, n);
    }
    if !ok {
      return;
    }
    ghost var readback;
    ok, state, readback := ReadbackInventory(p, plan, remaining, CHECKSUMS in names, None);
    e := Some(readback);
    if ok {
      AcceptedIsInFamily(p.env, readback.state.value, readback.downloads, plan, n, CHECKSUMS in names);
    }
    if p.honest && Exactly(p.env, p.remote, p.stored, plan, remaining, CHECKSUMS in names) {
      AcceptedIsInFamily(p.env, p.remote, p.stored, plan, n, CHECKSUMS in names);
    }
  }

  lemma FamilyHasRelease(env: Primitives, s: State, read: Downloads, plan: NormPlan)
    ensures InFamily(env, s, read, plan) ==> s.release.Some?
  {
  }
}
