/** One-shot publication: the journaled run, and what holds for its writes in every run. */
module Publication {
  import opened Text
  import opened Readback
  import opened Provider

  // ---------------------------------------------------------------- the script of one run

  function Step(id: int, draft: bool, assets: seq<Asset>): Event {
    Read(id, draft, assets, Free, None, map[], true)
  }

  function Prestate(target: int): Event {
    if target == 0 then Inspect(true) else Step(target, true, [])
  }

  /** The journal, then the draft: a new one, or the empty one being continued. */
  function Drafting(target: int, path: string, id: int): seq<Event> {
    [OpenJournal(path, true)]
    + if target == 0 then [Intent("DRAFT_STAGING", Named("CREATE_ONCE"), 0, true), CreateDraft(id, true)]
      else [Intent("EMPTY_DRAFT_CONTINUATION", Named("CONTINUE_ONCE"), id, true)]
  }

  function Opening(target: int, path: string, id: int): seq<Event> {
    [Prestate(target)] + Drafting(target, path, id)
  }

  function Transfer(plan: Plan, id: int, i: nat): seq<Event>
    requires i < |plan.assets|
  {
    var a := plan.assets[i];
    [Step(id, true, plan.assets[..i]), OpenAsset(a, true),
     Intent("EXACT_ASSET_TRANSFER", Named(a.name), id, true), Upload(id, a, true)]
  }

  function Transfers(plan: Plan, id: int, n: nat): seq<Event>
    requires n <= |plan.assets|
  {
    if n == 0 then [] else Transfers(plan, id, n - 1) + Transfer(plan, id, n - 1)
  }

  function PublicReads(assets: seq<Asset>, n: nat): seq<Event>
    requires n <= |assets|
  {
    if n == 0 then [] else PublicReads(assets, n - 1) + [PublicRead(assets[n - 1], true)]
  }

  function Closing(plan: Plan, id: int): seq<Event> {
    [Step(id, true, plan.assets), Intent("PUBLICATION", Named("PUBLISH_ONCE"), id, true), Publish(id, true),
     Step(id, false, plan.assets)]
  }

  function Confirming(plan: Plan, id: int): seq<Event> {
    PublicReads(plan.assets, |plan.assets|)
    + [Step(id, false, plan.assets), Intent("FINAL_READBACK", Named("VERIFIED_PUBLIC_PRERELEASE"), id, true)]
  }

  /** What follows the opened journal and the draft. */
  function Behind(plan: Plan, id: int): seq<Event> {
    Transfers(plan, id, |plan.assets|) + (Closing(plan, id) + Confirming(plan, id))
  }

  function Script(plan: Plan, target: int, path: string, id: int): seq<Event> {
    Opening(target, path, id) + Behind(plan, id)
  }

  // ---------------------------------------------------------------- the run

  /** Runs what is scripted so far plus one more event. */
  lemma Advance(env: Primitives, plan: Plan, acts: seq<Event>, done: seq<Event>, e: Event, s: Event)
    requires Completes(env, plan, acts, done) && (Carries(env, plan, e, s) || Fails(env, plan, e, s))
    ensures Conforms(env, plan, acts + [e], done + [s])
    ensures Carries(env, plan, e, s) ==> Completes(env, plan, acts + [e], done + [s])
  {
  }

  method Begin(p: ReleaseService, journals: Journals, plan: Plan, path: string, target: int)
    returns (ok: bool, id: int, ghost acts: seq<Event>)
    modifies p, journals
    ensures p.trace == old(p.trace) + acts
    ensures Conforms(p.env, plan, acts, Opening(target, path, id))
    ensures ok ==> Completes(p.env, plan, acts, Opening(target, path, id)) && id >= 1
    ensures !ok ==> Stops(acts) || (acts == [] && target < 0)
    ensures old(journals.files) <= journals.files
    ensures OpenJournal(path, true) in acts ==> path !in old(journals.files) && path in journals.files
  {
    hide Conforms, Completes, Prestate, Drafting;
    id := target;
    ok, acts := ReadPrestate(p, plan, target);
    if !ok {
      ConformsLonger(p.env, plan, acts, [Prestate(target)], Drafting(target, path, id));
      return;
    }
    ghost var more;
    ok, id, more := OpenDraft(p, journals, plan, path, target);
    ConformsThen(p.env, plan, acts, [Prestate(target)], more, Drafting(target, path, id));
    acts := acts + more;
  }

  method ReadPrestate(p: ReleaseService, plan: Plan, target: int) returns (ok: bool, ghost acts: seq<Event>)
    modifies p
    ensures p.trace == old(p.trace) + acts
    ensures Conforms(p.env, plan, acts, [Prestate(target)])
    ensures ok ==> Completes(p.env, plan, acts, [Prestate(target)]) && target >= 0
    ensures !ok ==> Stops(acts) || (acts == [] && target < 0)
    ensures forall e :: e in acts ==> !e.OpenJournal?
  {
    hide Accepts;
    acts := [];
    if target == 0 {
      ok := p.InspectAbsent(plan);
      acts := [Inspect(ok)];
    } else {
      if target < 1 {
        return false, acts;
      }
      ghost var e;
      var state;
      ok, state, e := p.ReadRelease(plan, target, true, [], Free);
      acts := [e];
    }
  }

  method OpenDraft(p: ReleaseService, journals: Journals, plan: Plan, path: string, target: int)
    returns (ok: bool, id: int, ghost acts: seq<Event>)
    requires target >= 0
    modifies p, journals
    ensures p.trace == old(p.trace) + acts
    ensures Conforms(p.env, plan, acts, Drafting(target, path, id))
    ensures ok ==> Completes(p.env, plan, acts, Drafting(target, path, id)) && id >= 1
    ensures !ok ==> Stops(acts)
    ensures old(journals.files) <= journals.files
    ensures OpenJournal(path, true) in acts ==> path !in old(journals.files) && path in journals.files
  {
    id := target;
    ok := journals.Open(path);
    p.NoteJournal(path, ok);
    acts := [OpenJournal(path, ok)];
    if !ok {
      return;
    }
    if target == 0 {
      ok := p.WriteIntent("DRAFT_STAGING", Named("CREATE_ONCE"), 0);
      acts := acts + [Intent("DRAFT_STAGING", Named("CREATE_ONCE"), 0, ok)];
      if !ok {
        return;
      }
      ok, id := p.DispatchCreate();
      acts := acts + [CreateDraft(id, ok)];
    } else {
      ok := p.WriteIntent("EMPTY_DRAFT_CONTINUATION", Named("CONTINUE_ONCE"), id);
      acts := acts + [Intent("EMPTY_DRAFT_CONTINUATION", Named("CONTINUE_ONCE"), id, ok)];
    }
  }

  method TransferOne(p: ReleaseService, plan: Plan, id: int, transferred: seq<Asset>, i: nat)
    returns (ok: bool, ghost acts: seq<Event>)
    requires i < |plan.assets| && transferred == plan.assets[..i]
    modifies p
    ensures p.trace == old(p.trace) + acts
    ensures Conforms(p.env, plan, acts, Transfer(plan, id, i))
    ensures ok ==> Completes(p.env, plan, acts, Transfer(plan, id, i))
    ensures !ok ==> Stops(acts)
  {
    hide Accepts;
    var a := plan.assets[i];
    ghost var e;
    var state;
    ok, state, e := p.ReadRelease(plan, id, true, transferred, Free);
    acts := [e];
    if !ok {
      return;
    }
    ok := p.OpenLocal(a);
    acts := acts + [OpenAsset(a, ok)];
    if !ok {
      return;
    }
    ok := p.WriteIntent("EXACT_ASSET_TRANSFER", Named(a.name), id);
    acts := acts + [Intent("EXACT_ASSET_TRANSFER", Named(a.name), id, ok)];
    if !ok {
      return;
    }
    ghost var applied;
    ok, applied := p.DispatchUpload(id, a);
    acts := acts + [Upload(id, a, ok)];
  }

  method TransferAll(p: ReleaseService, plan: Plan, id: int) returns (ok: bool, ghost acts: seq<Event>)
    modifies p
    ensures p.trace == old(p.trace) + acts
    ensures Conforms(p.env, plan, acts, Transfers(plan, id, |plan.assets|))
    ensures ok ==> Completes(p.env, plan, acts, Transfers(plan, id, |plan.assets|))
    ensures !ok ==> Stops(acts)
  {
    hide Conforms, Completes, Transfer;
    var transferred := [];
    acts := [];
    NothingYet(p.env, plan);
    var i := 0;
    while i < |plan.assets|
      invariant 0 <= i <= |plan.assets| && transferred == plan.assets[..i]
      invariant p.trace == old(p.trace) + acts && Completes(p.env, plan, acts, Transfers(plan, id, i))
    {
      ghost var more;
      ok, more := TransferOne(p, plan, id, transferred, i);
      ConformsThen(p.env, plan, acts, Transfers(plan, id, i), more, Transfer(plan, id, i));
      acts := acts + more;
      if !ok {
        TransfersGrow(p.env, plan, id, acts, i + 1, |plan.assets|);
        return;
      }
      transferred := transferred + [plan.assets[i]];
      i := i + 1;
    }
    CompletesConforms(p.env, plan, acts, Transfers(plan, id, i));
    return true, acts;
  }

  lemma NothingYet(env: Primitives, plan: Plan)
    ensures Completes(env, plan, [], [])
  {
  }

  lemma CompletesConforms(env: Primitives, plan: Plan, acts: seq<Event>, script: seq<Event>)
    requires Completes(env, plan, acts, script)
    ensures Conforms(env, plan, acts, script)
  {
  }

  lemma {:induction false} TransfersGrow(env: Primitives, plan: Plan, id: int, acts: seq<Event>, m: nat, n: nat)
    requires m <= n <= |plan.assets| && Conforms(env, plan, acts, Transfers(plan, id, m))
    ensures Conforms(env, plan, acts, Transfers(plan, id, n))
    decreases n
  {
    hide Conforms, Transfer;
    if m < n {
      TransfersGrow(env, plan, id, acts, m, n - 1);
      ConformsLonger(env, plan, acts, Transfers(plan, id, n - 1), Transfer(plan, id, n - 1));
    }
  }

  method CloseRelease(p: ReleaseService, plan: Plan, id: int) returns (ok: bool, ghost acts: seq<Event>)
    modifies p
    ensures p.trace == old(p.trace) + acts
    ensures Conforms(p.env, plan, acts, Closing(plan, id))
    ensures ok ==> Completes(p.env, plan, acts, Closing(plan, id))
    ensures !ok ==> Stops(acts)
  {
    hide Accepts;
    ghost var e;
    var state;
    ok, state, e := p.ReadRelease(plan, id, true, plan.assets, Free);
    acts := [e];
    if !ok {
      return;
    }
    ok := p.WriteIntent("PUBLICATION", Named("PUBLISH_ONCE"), id);
    acts := acts + [Intent("PUBLICATION", Named("PUBLISH_ONCE"), id, ok)];
    if !ok {
      return;
    }
    ok := p.DispatchPublish(id);
    acts := acts + [Publish(id, ok)];
    if !ok {
      return;
    }
    ok, state, e := p.ReadRelease(plan, id, false, plan.assets, Free);
    acts := acts + [e];
  }

  /** The credential-free downloads of a whole inventory. */
  method ReadAllPublic(p: ReleaseService, plan: Plan, assets: seq<Asset>) returns (ok: bool, ghost acts: seq<Event>)
    modifies p
    ensures p.trace == old(p.trace) + acts && p.remote == old(p.remote) && p.stored == old(p.stored)
    ensures Conforms(p.env, plan, acts, PublicReads(assets, |assets|))
    ensures ok ==> Completes(p.env, plan, acts, PublicReads(assets, |assets|))
    ensures !ok ==> Stops(acts)
  {
    hide Conforms, Completes;
    acts := [];
    NothingYet(p.env, plan);
    var i := 0;
    while i < |assets|
      invariant 0 <= i <= |assets| && p.remote == old(p.remote) && p.stored == old(p.stored)
      invariant p.trace == old(p.trace) + acts && Completes(p.env, plan, acts, PublicReads(assets, i))
    {
      ok := p.ReadPublic(assets[i]);
      Advance(p.env, plan, acts, PublicReads(assets, i), PublicRead(assets[i], ok), PublicRead(assets[i], true));
      acts := acts + [PublicRead(assets[i], ok)];
      if !ok {
        PublicReadsGrow(p.env, plan, assets, acts, i + 1, |assets|);
        return;
      }
      i := i + 1;
    }
    CompletesConforms(p.env, plan, acts, PublicReads(assets, i));
    return true, acts;
  }

  lemma {:induction false} PublicReadsGrow(env: Primitives, plan: Plan, assets: seq<Asset>, acts: seq<Event>, m: nat,
                                           n: nat)
    requires m <= n <= |assets| && Conforms(env, plan, acts, PublicReads(assets, m))
    ensures Conforms(env, plan, acts, PublicReads(assets, n))
    decreases n
  {
    hide Conforms;
    if m < n {
      PublicReadsGrow(env, plan, assets, acts, m, n - 1);
      ConformsLonger(env, plan, acts, PublicReads(assets, n - 1), [PublicRead(assets[n - 1], true)]);
    }
  }

  method Confirm(p: ReleaseService, plan: Plan, id: int) returns (ok: bool, ghost acts: seq<Event>)
    modifies p
    ensures p.trace == old(p.trace) + acts
    ensures Conforms(p.env, plan, acts, Confirming(plan, id))
    ensures ok ==> Completes(p.env, plan, acts, Confirming(plan, id))
    ensures !ok ==> Stops(acts)
  {
    hide Accepts, PublicReads, Conforms, Completes, Carries;
    ghost var downloads := PublicReads(plan.assets, |plan.assets|);
    ghost var last := Intent("FINAL_READBACK", Named("VERIFIED_PUBLIC_PRERELEASE"), id, true);
    assert Confirming(plan, id) == downloads + [Step(id, false, plan.assets)] + [last];
    ok, acts := ReadAllPublic(p, plan, plan.assets);
    if !ok {
      ConformsLonger(p.env, plan, acts, downloads, [Step(id, false, plan.assets)]);
      ConformsLonger(p.env, plan, acts, downloads + [Step(id, false, plan.assets)], [last]);
      return;
    }
    ghost var e;
    var state;
    ok, state, e := p.ReadRelease(plan, id, false, plan.assets, Free);
    Advance(p.env, plan, acts, downloads, e, Step(id, false, plan.assets));
    acts := acts + [e];
    if !ok {
      ConformsLonger(p.env, plan, acts, downloads + [Step(id, false, plan.assets)], [last]);
      return;
    }
    ok := p.WriteIntent("FINAL_READBACK", Named("VERIFIED_PUBLIC_PRERELEASE"), id);
    ghost var noted := Intent("FINAL_READBACK", Named("VERIFIED_PUBLIC_PRERELEASE"), id, ok);
    IntentStep(p.env, plan, "FINAL_READBACK", Named("VERIFIED_PUBLIC_PRERELEASE"), id, ok);
    Advance(p.env, plan, acts, downloads + [Step(id, false, plan.assets)], noted, last);
    acts := acts + [noted];
  }

  lemma IntentStep(env: Primitives, plan: Plan, phase: string, action: Action, id: int, ok: bool)
    ensures var e, s := Intent(phase, action, id, ok), Intent(phase, action, id, true);
            if ok then Carries(env, plan, e, s) else Fails(env, plan, e, s)
  {
  }

  /** The run behind its journal: the transfers, the publication and the public readback. */
  method Finish(p: ReleaseService, plan: Plan, id: int) returns (ok: bool, ghost acts: seq<Event>)
    requires id >= 1
    modifies p
    ensures p.trace == old(p.trace) + acts
    ensures Conforms(p.env, plan, acts, Behind(plan, id))
    ensures ok ==> Completes(p.env, plan, acts, Behind(plan, id))
    ensures !ok ==> Stops(acts)
  {
    hide Conforms, Completes, Transfers, Closing, Confirming;
    ghost var transfers, rest := Transfers(plan, id, |plan.assets|), Closing(plan, id) + Confirming(plan, id);
    ok, acts := TransferAll(p, plan, id);
    ConformsLonger(p.env, plan, acts, transfers, rest);
    if ok {
      ghost var more;
      ok, more := CloseAndConfirm(p, plan, id);
      ConformsThen(p.env, plan, acts, transfers, more, rest);
      acts := acts + more;
    }
  }

  method CloseAndConfirm(p: ReleaseService, plan: Plan, id: int) returns (ok: bool, ghost acts: seq<Event>)
    requires id >= 1
    modifies p
    ensures p.trace == old(p.trace) + acts
    ensures Conforms(p.env, plan, acts, Closing(plan, id) + Confirming(plan, id))
    ensures ok ==> Completes(p.env, plan, acts, Closing(plan, id) + Confirming(plan, id))
    ensures !ok ==> Stops(acts)
  {
    hide Conforms, Completes, Closing, Confirming;
    ok, acts := CloseRelease(p, plan, id);
    ConformsLonger(p.env, plan, acts, Closing(plan, id), Confirming(plan, id));
    if ok {
      ghost var more;
      ok, more := Confirm(p, plan, id);
      ConformsThen(p.env, plan, acts, Closing(plan, id), more, Confirming(plan, id));
      acts := acts + more;
    }
  }

  /**
   executePublicationTarget. bound stands for the local checks of the plan and evidence, evidence for the asset
   list projected from the verified directory; target 0 creates a draft, a positive target continues one.
   */
  method ExecutePublicationTarget(p: ReleaseService, journals: Journals, plan: Plan, bound: bool,
                                  evidence: Option<seq<Asset>>,
                                  path: string, target: int)
    returns (ok: bool, id: int, ghost acts: seq<Event>)
    modifies p, journals
    ensures p.trace == old(p.trace) + acts
    ensures Conforms(p.env, plan, acts, Script(plan, target, path, id))
    ensures ok ==> Completes(p.env, plan, acts, Script(plan, target, path, id))
    ensures ok ==> ReadAfterWrites(acts, plan.assets)
    ensures !ok ==> Stops(acts) || (acts == [] && !(bound && evidence == Some(plan.assets) && target >= 0))
    ensures old(journals.files) <= journals.files
    ensures OpenJournal(path, true) in acts ==> path !in old(journals.files) && path in journals.files
  {
    hide Conforms, Completes, Opening, Behind;
    acts, id := [], target;
    NothingYet(p.env, plan);
    CompletesConforms(p.env, plan, [], []);
    ghost var whole := Script(plan, target, path, id);
    assert [] + whole == whole;
    ConformsLonger(p.env, plan, [], [], whole);
    if !bound || evidence != Some(plan.assets) {
      return false, id, acts;
    }
    ok, id, acts := Begin(p, journals, plan, path, target);
    ghost var opening, rest := Opening(target, path, id), Behind(plan, id);
    ConformsLonger(p.env, plan, acts, opening, rest);
    if !ok {
      return;
    }
    ghost var more;
    ok, more := Finish(p, plan, id);
    ConformsThen(p.env, plan, acts, opening, more, rest);
    NoJournalBehind(plan, id, path);
    NoJournalLater(p.env, plan, more, rest, path);
    acts := acts + more;
    if ok {
      CompletedRunIsRead(p.env, plan, target, path, id, acts);
    }
  }

  lemma NoJournalBehind(plan: Plan, id: int, path: string)
    ensures OpenJournal(path, true) !in Behind(plan, id)
  {
    hide Transfers, Closing, Confirming;
    NoJournalInTransfers(plan, id, |plan.assets|, path);
    NoJournalInClosing(plan, id, path);
    NoJournalInConfirming(plan, id, path);
  }

  lemma NoJournalLater(env: Primitives, plan: Plan, acts: seq<Event>, script: seq<Event>, path: string)
    requires Conforms(env, plan, acts, script) && OpenJournal(path, true) !in script
    ensures OpenJournal(path, true) !in acts
  {
  }

  lemma {:induction false} NoJournalInTransfers(plan: Plan, id: int, n: nat, path: string)
    requires n <= |plan.assets|
    ensures OpenJournal(path, true) !in Transfers(plan, id, n)
  {
    if n > 0 {
      NoJournalInTransfers(plan, id, n - 1, path);
    }
  }

  lemma NoJournalInClosing(plan: Plan, id: int, path: string)
    ensures OpenJournal(path, true) !in Closing(plan, id)
  {
  }

  lemma {:induction false} NoJournalInReads(assets: seq<Asset>, n: nat, path: string)
    requires n <= |assets|
    ensures OpenJournal(path, true) !in PublicReads(assets, n)
  {
    if n > 0 {
      NoJournalInReads(assets, n - 1, path);
    }
  }

  lemma NoJournalInConfirming(plan: Plan, id: int, path: string)
    ensures OpenJournal(path, true) !in Confirming(plan, id)
  {
    NoJournalInReads(plan.assets, |plan.assets|, path);
  }

  // ---------------------------------------------------------------- the writes of one run

  datatype Write = DraftWrite | UploadWrite(asset: Asset) | PublishWrite | DeleteWrite(assetId: int)

  function WriteOf(e: Event): Option<Write> {
    match e
    case CreateDraft(_, _) => Some(DraftWrite)
    case Upload(_, a, _) => Some(UploadWrite(a))
    case Publish(_, _) => Some(PublishWrite)
    case Delete(assetId, _) => Some(DeleteWrite(assetId))
    case _ => None
  }

  /** The writes dispatched in a trace, in order, whether they were reported as done or not. */
  function Writes(acts: seq<Event>): seq<Write> {
    if acts == [] then []
    else
      var w := WriteOf(acts[|acts| - 1]);
      Writes(acts[..|acts| - 1]) + if w.Some? then [w.value] else []
  }

  /** The intent that has to be journaled for a write. */
  predicate Announces(e: Event, w: Write) {
    && e.Intent? && e.ok
    && match w
       case DraftWrite => e.phase == "DRAFT_STAGING" && e.action == Named("CREATE_ONCE")
       case UploadWrite(a) => (e.phase == "EXACT_ASSET_TRANSFER" && e.action == Named(a.name))
                              || (e.phase == "NORMALIZATION_UPLOAD" && e.action == Named("UPLOAD_SHA256SUMS"))
       case PublishWrite => e.phase == "PUBLICATION" && e.action == Named("PUBLISH_ONCE")
       case DeleteWrite(assetId) => e.phase == "NORMALIZATION_DELETE" && e.action == DeleteAsset(assetId)
  }

  /** Every write comes right after its own intent. */
  ghost predicate Announced(acts: seq<Event>) {
    forall k :: 0 <= k < |acts| && WriteOf(acts[k]).Some? ==> k > 0 && Announces(acts[k - 1], WriteOf(acts[k]).value)
  }

  lemma AnnouncedThen(a: seq<Event>, b: seq<Event>)
    requires Announced(a) && Announced(b)
    ensures Announced(a + b)
  {
  }

  lemma {:induction false} WritesThen(a: seq<Event>, b: seq<Event>)
    ensures Writes(a + b) == Writes(a) + Writes(b)
    decreases |b|
  {
    if b == [] {
      assert a + b == a;
    } else {
      var init := b[..|b| - 1];
      assert (a + b)[..|a + b| - 1] == a + init;
      WritesThen(a, init);
    }
  }

  lemma {:induction false} WritesPrefix(script: seq<Event>, n: nat)
    requires n <= |script|
    ensures Writes(script[..n]) <= Writes(script)
  {
    assert script == script[..n] + script[n..];
    WritesThen(script[..n], script[n..]);
  }

  lemma SameWrite(env: Primitives, plan: Plan, e: Event, s: Event)
    requires Carries(env, plan, e, s) || Fails(env, plan, e, s)
    ensures WriteOf(e) == WriteOf(s)
  {
  }

  /** A conforming trace dispatches a prefix of the writes its script dispatches. */
  lemma {:induction false} ConformingWrites(env: Primitives, plan: Plan, acts: seq<Event>, script: seq<Event>)
    requires Conforms(env, plan, acts, script)
    ensures Writes(acts) == Writes(script[..|acts|]) && Writes(acts) <= Writes(script)
    decreases |acts|
  {
    hide Carries, Fails;
    if acts != [] {
      var n := |acts| - 1;
      forall k | 0 <= k < n ensures Carries(env, plan, acts[..n][k], script[k]) {
      }
      ConformingWrites(env, plan, acts[..n], script);
      SameWrite(env, plan, acts[n], script[n]);
      assert script[..n + 1][..n] == script[..n];
    }
    WritesPrefix(script, |acts|);
  }

  /** Each write of a conforming trace has its own synced intent directly before it. */
  lemma ConformingAnnounced(env: Primitives, plan: Plan, acts: seq<Event>, script: seq<Event>)
    requires Conforms(env, plan, acts, script) && Announced(script)
    ensures Announced(acts)
  {
  }

  /** Nothing follows an error. */
  lemma ConformingStops(env: Primitives, plan: Plan, acts: seq<Event>, script: seq<Event>)
    requires Conforms(env, plan, acts, script) && forall k :: 0 <= k < |script| ==> script[k].ok
    ensures forall k :: 0 <= k < |acts| - 1 ==> acts[k].ok
  {
  }

  // ---------------------------------------------------------------- the publication script

  function UploadWrites(assets: seq<Asset>, n: nat): (r: seq<Write>)
    requires n <= |assets|
    ensures |r| == n && forall i :: 0 <= i < n ==> r[i] == UploadWrite(assets[i])
  {
    if n == 0 then [] else UploadWrites(assets, n - 1) + [UploadWrite(assets[n - 1])]
  }

  /** Create unless continuing, upload every asset in plan order, publish. */
  function OneShot(plan: Plan, target: int): seq<Write> {
    (if target == 0 then [DraftWrite] else []) + UploadWrites(plan.assets, |plan.assets|) + [PublishWrite]
  }

  predicate AllOk(s: seq<Event>) {
    forall k :: 0 <= k < |s| ==> s[k].ok
  }

  /** A publication directly follows its intent, which directly follows a readback of the complete draft. */
  predicate Proved(s: seq<Event>, plan: Plan, id: int) {
    forall k :: 0 <= k < |s| && s[k].Publish? ==> k >= 2 && s[k - 2] == Step(id, true, plan.assets)
  }

  lemma PropertiesThen(a: seq<Event>, b: seq<Event>, plan: Plan, id: int)
    requires AllOk(a) && AllOk(b) && Proved(a, plan, id) && Proved(b, plan, id)
    ensures AllOk(a + b) && Proved(a + b, plan, id)
  {
  }

  lemma FourWrites(a: Event, b: Event, c: Event, d: Event)
    ensures Writes([a, b, c, d]) == Writes([a]) + Writes([b]) + Writes([c]) + Writes([d])
  {
    WritesThen([a], [b]);
    WritesThen([a, b], [c]);
    WritesThen([a, b, c], [d]);
    assert [a] + [b] == [a, b] && [a, b] + [c] == [a, b, c] && [a, b, c] + [d] == [a, b, c, d];
  }

  lemma OneTransferIs(plan: Plan, id: int, i: nat)
    requires i < |plan.assets|
    ensures var s := Transfer(plan, id, i);
            Writes(s) == [UploadWrite(plan.assets[i])] && Announced(s) && AllOk(s) && Proved(s, plan, id)
  {
    var t := Transfer(plan, id, i);
    FourWrites(t[0], t[1], t[2], t[3]);
  }

  lemma {:induction false} TransfersAre(plan: Plan, id: int, n: nat)
    requires n <= |plan.assets|
    ensures var s := Transfers(plan, id, n);
            Writes(s) == UploadWrites(plan.assets, n) && Announced(s) && AllOk(s) && Proved(s, plan, id)
  {
    if n > 0 {
      hide Transfer, Writes, Announced, AllOk, Proved;
      var before, t := Transfers(plan, id, n - 1), Transfer(plan, id, n - 1);
      TransfersAre(plan, id, n - 1);
      OneTransferIs(plan, id, n - 1);
      WritesThen(before, t);
      AnnouncedThen(before, t);
      PropertiesThen(before, t, plan, id);
    } else {
      NoEventsAre(plan, id);
    }
  }

  lemma NoEventsAre(plan: Plan, id: int)
    ensures Writes([]) == [] && Announced([]) && AllOk([]) && Proved([], plan, id)
  {
  }

  lemma OneReadIs(a: Asset, plan: Plan, id: int)
    ensures var s := [PublicRead(a, true)]; Writes(s) == [] && Announced(s) && AllOk(s) && Proved(s, plan, id)
  {
  }

  lemma {:induction false} PublicReadsAre(assets: seq<Asset>, n: nat, plan: Plan, id: int)
    requires n <= |assets|
    ensures var s := PublicReads(assets, n); Writes(s) == [] && Announced(s) && AllOk(s) && Proved(s, plan, id)
  {
    if n > 0 {
      hide Writes, Announced, AllOk, Proved;
      var before, read := PublicReads(assets, n - 1), [PublicRead(assets[n - 1], true)];
      PublicReadsAre(assets, n - 1, plan, id);
      OneReadIs(assets[n - 1], plan, id);
      WritesThen(before, read);
      AnnouncedThen(before, read);
      PropertiesThen(before, read, plan, id);
    }
  }

  lemma OpeningIs(target: int, path: string, id: int, plan: Plan)
    ensures var s := Opening(target, path, id);
            && Writes(s) == (if target == 0 then [DraftWrite] else [])
            && Announced(s) && AllOk(s) && Proved(s, plan, id)
  {
    hide Writes;
    OpeningWrites(target, path, id);
  }

  lemma OpeningWrites(target: int, path: string, id: int)
    ensures Writes(Opening(target, path, id)) == if target == 0 then [DraftWrite] else []
  {
    var o := Opening(target, path, id);
    if target == 0 {
      assert o == [o[0], o[1], o[2], o[3]];
      FourWrites(o[0], o[1], o[2], o[3]);
    } else {
      WritesThen([o[0]], [o[1]]);
      WritesThen([o[0], o[1]], [o[2]]);
      assert [o[0]] + [o[1]] == [o[0], o[1]] && o == [o[0], o[1]] + [o[2]];
    }
  }

  lemma ClosingIs(plan: Plan, id: int)
    ensures var s := Closing(plan, id);
            Writes(s) == [PublishWrite] && Announced(s) && AllOk(s) && Proved(s, plan, id)
  {
    var c := Closing(plan, id);
    FourWrites(c[0], c[1], c[2], c[3]);
  }

  lemma ConfirmingIs(plan: Plan, id: int)
    ensures var s := Confirming(plan, id); Writes(s) == [] && Announced(s) && AllOk(s) && Proved(s, plan, id)
  {
    var downloads := PublicReads(plan.assets, |plan.assets|);
    var s := Step(id, false, plan.assets);
    var last := Intent("FINAL_READBACK", Named("VERIFIED_PUBLIC_PRERELEASE"), id, true);
    PublicReadsAre(plan.assets, |plan.assets|, plan, id);
    WritesThen([s], [last]);
    assert [s] + [last] == [s, last];
    WritesThen(downloads, [s, last]);
    AnnouncedThen(downloads, [s, last]);
    PropertiesThen(downloads, [s, last], plan, id);
  }

  /** What the script of a publication dispatches, and that every write in it is announced and proved. */
  lemma ScriptIs(plan: Plan, target: int, path: string, id: int)
    ensures var s := Script(plan, target, path, id);
            Writes(s) == OneShot(plan, target) && Announced(s) && AllOk(s) && Proved(s, plan, id)
  {
    hide Opening, Transfers, Closing, Confirming, Announced, Writes, AllOk, Proved;
    var opening, middle := Opening(target, path, id), Transfers(plan, id, |plan.assets|);
    var closing, last := Closing(plan, id), Confirming(plan, id);
    OpeningIs(target, path, id, plan);
    TransfersAre(plan, id, |plan.assets|);
    ClosingIs(plan, id);
    ConfirmingIs(plan, id);
    WritesThen(closing, last);
    WritesThen(middle, closing + last);
    WritesThen(opening, middle + (closing + last));
    AnnouncedThen(closing, last);
    AnnouncedThen(middle, closing + last);
    AnnouncedThen(opening, middle + (closing + last));
    PropertiesThen(closing, last, plan, id);
    PropertiesThen(middle, closing + last, plan, id);
    PropertiesThen(opening, middle + (closing + last), plan, id);
  }

  // ---------------------------------------------------------------- a completed run, step by step

  lemma {:induction false} PublicReadsAt(assets: seq<Asset>, n: nat)
    requires n <= |assets|
    ensures |PublicReads(assets, n)| == n
    ensures forall i :: 0 <= i < n ==> PublicReads(assets, n)[i] == PublicRead(assets[i], true)
  {
    if n > 0 {
      PublicReadsAt(assets, n - 1);
    }
  }

  /** Each asset takes four steps: the readback of those before it, its local bytes, the intent and the upload. */
  ghost predicate TransferAt(s: seq<Event>, at: nat, plan: Plan, id: int, i: nat)
    requires i < |plan.assets|
  {
    && at + 4 <= |s| && s[at] == Read(id, true, plan.assets[..i], Free, None, map[], true)
    && s[at + 1] == OpenAsset(plan.assets[i], true)
    && s[at + 2] == Intent("EXACT_ASSET_TRANSFER", Named(plan.assets[i].name), id, true)
    && s[at + 3] == Upload(id, plan.assets[i], true)
  }

  lemma {:induction false} TransfersAt(plan: Plan, id: int, n: nat)
    requires n <= |plan.assets|
    ensures |Transfers(plan, id, n)| == 4 * n
    ensures forall i :: 0 <= i < n ==> TransferAt(Transfers(plan, id, n), 4 * i, plan, id, i)
  {
    if n > 0 {
      TransfersAt(plan, id, n - 1);
      var before, all := Transfers(plan, id, n - 1), Transfers(plan, id, n);
      forall i | 0 <= i < n ensures TransferAt(all, 4 * i, plan, id, i) {
        if i < n - 1 {
          assert TransferAt(before, 4 * i, plan, id, i);
        }
      }
    }
  }

  /** The readback proved that the release holds exactly these assets. */
  ghost predicate ProvedRead(env: Primitives, plan: Plan, e: Event, id: int, draft: bool, assets: seq<Asset>) {
    && e.Read? && e.ok && e.id == id && e.state.Some?
    && Accepts(env, e.state.value, e.downloads, plan, id, draft, assets)
  }

  /** The uploads of a completed run that opened with the first o steps. */
  ghost predicate Uploaded(env: Primitives, plan: Plan, acts: seq<Event>, o: nat, id: int) {
    forall i :: 0 <= i < |plan.assets| ==> UploadedAt(env, plan, acts, o + 4 * i, id, i)
  }

  ghost predicate UploadedAt(env: Primitives, plan: Plan, acts: seq<Event>, at: nat, id: int, i: nat)
    requires i < |plan.assets|
  {
    && at + 4 <= |acts| && ProvedRead(env, plan, acts[at], id, true, plan.assets[..i])
    && acts[at + 1] == OpenAsset(plan.assets[i], true)
    && acts[at + 2] == Intent("EXACT_ASSET_TRANSFER", Named(plan.assets[i].name), id, true)
    && acts[at + 3] == Upload(id, plan.assets[i], true)
  }

  /** From step at on: the complete draft is proved, published, proved public, downloaded asset by asset, proved again. */
  ghost predicate PublishedAt(env: Primitives, plan: Plan, acts: seq<Event>, at: nat, id: int) {
    var n := |plan.assets|;
    && |acts| == at + n + 6 && ProvedRead(env, plan, acts[at], id, true, plan.assets)
    && acts[at + 1] == Intent("PUBLICATION", Named("PUBLISH_ONCE"), id, true) && acts[at + 2] == Publish(id, true)
    && ProvedRead(env, plan, acts[at + 3], id, false, plan.assets)
    && (forall i :: 0 <= i < n ==> acts[at + 4 + i] == PublicRead(plan.assets[i], true))
    && ProvedRead(env, plan, acts[at + n + 4], id, false, plan.assets)
    && acts[at + n + 5] == Intent("FINAL_READBACK", Named("VERIFIED_PUBLIC_PRERELEASE"), id, true)
  }

  /** How a completed run opens: nothing there yet and a draft created once, or an empty draft continued once. */
  ghost predicate OpenedBy(env: Primitives, plan: Plan, acts: seq<Event>, target: int, path: string, id: int) {
    && |acts| >= 4 && acts[1] == OpenJournal(path, true)
    && if target == 0 then
         && acts[0] == Inspect(true) && acts[2] == Intent("DRAFT_STAGING", Named("CREATE_ONCE"), 0, true)
         && acts[3] == CreateDraft(id, true)
       else
         && ProvedRead(env, plan, acts[0], target, true, [])
         && acts[2] == Intent("EMPTY_DRAFT_CONTINUATION", Named("CONTINUE_ONCE"), id, true)
  }

  lemma CarriedAt(env: Primitives, plan: Plan, acts: seq<Event>, script: seq<Event>, k: nat)
    requires Completes(env, plan, acts, script) && k < |script|
    ensures |acts| == |script|
    ensures if script[k].Read? then ProvedRead(env, plan, acts[k], script[k].id, script[k].draft, script[k].assets)
            else acts[k] == script[k]
  {
  }

  /** A completed run: opened, every asset uploaded in plan order, published, and every asset downloaded afterwards. */
  lemma CompletedRun(env: Primitives, plan: Plan, target: int, path: string, id: int, acts: seq<Event>)
    requires Completes(env, plan, acts, Script(plan, target, path, id))
    ensures var o := if target == 0 then 4 else 3;
            && OpenedBy(env, plan, acts, target, path, id) && Uploaded(env, plan, acts, o, id)
            && PublishedAt(env, plan, acts, o + 4 * |plan.assets|, id)
  {
    hide Completes, ProvedRead, Script, Uploaded, PublishedAt, OpenedBy;
    CompletedOpening(env, plan, target, path, id, acts);
    CompletedUploads(env, plan, target, path, id, acts);
    CompletedPublication(env, plan, target, path, id, acts);
  }

  lemma CompletedOpening(env: Primitives, plan: Plan, target: int, path: string, id: int, acts: seq<Event>)
    requires Completes(env, plan, acts, Script(plan, target, path, id))
    ensures OpenedBy(env, plan, acts, target, path, id)
  {
    hide Completes, ProvedRead, Transfers, Closing, Confirming;
    var script := Script(plan, target, path, id);
    ClosingIsFour(plan, id);
    CarriedAt(env, plan, acts, script, 0);
    CarriedAt(env, plan, acts, script, 1);
    CarriedAt(env, plan, acts, script, 2);
    CarriedAt(env, plan, acts, script, 3);
  }

  lemma ClosingIsFour(plan: Plan, id: int)
    ensures |Closing(plan, id)| == 4
  {
  }

  lemma CompletedUploads(env: Primitives, plan: Plan, target: int, path: string, id: int, acts: seq<Event>)
    requires Completes(env, plan, acts, Script(plan, target, path, id))
    ensures Uploaded(env, plan, acts, if target == 0 then 4 else 3, id)
  {
    hide Completes, ProvedRead, Transfers, Closing, Confirming;
    var o, n, script := if target == 0 then 4 else 3, |plan.assets|, Script(plan, target, path, id);
    TransfersAt(plan, id, n);
    forall i | 0 <= i < n ensures UploadedAt(env, plan, acts, o + 4 * i, id, i) {
      assert TransferAt(Transfers(plan, id, n), 4 * i, plan, id, i);
      assert TransferAt(script, o + 4 * i, plan, id, i);
      CarriedAt(env, plan, acts, script, o + 4 * i);
      CarriedAt(env, plan, acts, script, o + 4 * i + 1);
      CarriedAt(env, plan, acts, script, o + 4 * i + 2);
      CarriedAt(env, plan, acts, script, o + 4 * i + 3);
    }
  }

  lemma CompletedPublication(env: Primitives, plan: Plan, target: int, path: string, id: int, acts: seq<Event>)
    requires Completes(env, plan, acts, Script(plan, target, path, id))
    ensures PublishedAt(env, plan, acts, (if target == 0 then 4 else 3) + 4 * |plan.assets|, id)
  {
    hide Completes, ProvedRead, Script;
    var at, n, script := (if target == 0 then 4 else 3) + 4 * |plan.assets|, |plan.assets|, Script(plan, target, path, id);
    PublicationScriptAt(plan, target, path, id);
    CarriedAt(env, plan, acts, script, at);
    CarriedAt(env, plan, acts, script, at + 1);
    CarriedAt(env, plan, acts, script, at + 2);
    CarriedAt(env, plan, acts, script, at + 3);
    forall i | 0 <= i < n ensures acts[at + 4 + i] == PublicRead(plan.assets[i], true) {
      CarriedAt(env, plan, acts, script, at + 4 + i);
    }
    CarriedAt(env, plan, acts, script, at + n + 4);
    CarriedAt(env, plan, acts, script, at + n + 5);
  }

  lemma PublicationScriptAt(plan: Plan, target: int, path: string, id: int)
    ensures var script, n := Script(plan, target, path, id), |plan.assets|;
            var at := (if target == 0 then 4 else 3) + 4 * n;
            && |script| == at + n + 6 && script[at] == Step(id, true, plan.assets)
            && script[at + 1] == Intent("PUBLICATION", Named("PUBLISH_ONCE"), id, true) && script[at + 2] == Publish(id, true)
            && script[at + 3] == Step(id, false, plan.assets)
            && (forall i :: 0 <= i < n ==> script[at + 4 + i] == PublicRead(plan.assets[i], true))
            && script[at + n + 4] == Step(id, false, plan.assets)
            && script[at + n + 5] == Intent("FINAL_READBACK", Named("VERIFIED_PUBLIC_PRERELEASE"), id, true)
  {
    hide PublicReads, Transfers;
    TransfersAt(plan, id, |plan.assets|);
    PublicReadsAt(plan.assets, |plan.assets|);
  }

  /** Every one of the assets is downloaded and compared after the last write. */
  ghost predicate ReadAfterWrites(acts: seq<Event>, assets: seq<Asset>) {
    exists w :: 0 <= w <= |acts| && NoWriteFrom(acts, w) && forall a :: a in assets ==> ReadFrom(acts, w, a)
  }

  ghost predicate NoWriteFrom(acts: seq<Event>, w: nat) {
    forall k :: w <= k < |acts| ==> WriteOf(acts[k]).None?
  }

  ghost predicate ReadFrom(acts: seq<Event>, w: nat, a: Asset) {
    exists j :: w <= j < |acts| && acts[j] == PublicRead(a, true)
  }

  lemma CompletedRunIsRead(env: Primitives, plan: Plan, target: int, path: string, id: int, acts: seq<Event>)
    requires Completes(env, plan, acts, Script(plan, target, path, id))
    ensures ReadAfterWrites(acts, plan.assets)
  {
    hide Completes, Accepts, Script;
    CompletedPublication(env, plan, target, path, id, acts);
    var at, n := (if target == 0 then 4 else 3) + 4 * |plan.assets|, |plan.assets|;
    forall k | at + 3 <= k < |acts| ensures WriteOf(acts[k]).None? {
      if at + 4 <= k < at + 4 + n {
        assert acts[at + 4 + (k - at - 4)] == PublicRead(plan.assets[k - at - 4], true);
      }
    }
    assert NoWriteFrom(acts, at + 3);
    forall a | a in plan.assets ensures ReadFrom(acts, at + 3, a) {
      var i :| 0 <= i < n && plan.assets[i] == a;
      assert acts[at + 4 + i] == PublicRead(a, true);
    }
  }

  // ---------------------------------------------------------------- where the writes of any run are

  /** The i-th upload: dispatched in its place, behind the readback of those before it, its bytes and its intent. */
  ghost predicate UploadPlace(env: Primitives, plan: Plan, acts: seq<Event>, o: nat, id: int, k: nat, i: nat)
    requires k < |acts| && i < |plan.assets|
  {
    && k == o + 4 * i + 3 && (acts[k] == Upload(id, plan.assets[i], true) || acts[k] == Upload(id, plan.assets[i], false))
    && acts[k - 1] == Intent("EXACT_ASSET_TRANSFER", Named(plan.assets[i].name), id, true)
    && acts[k - 2] == OpenAsset(plan.assets[i], true) && ProvedRead(env, plan, acts[k - 3], id, true, plan.assets[..i])
  }

  /** The publication: dispatched behind every upload, the readback of the complete draft and its intent. */
  ghost predicate PublishPlace(env: Primitives, plan: Plan, acts: seq<Event>, o: nat, id: int, k: nat)
    requires k < |acts|
  {
    && k == o + 4 * |plan.assets| + 2 && (acts[k] == Publish(id, true) || acts[k] == Publish(id, false))
    && acts[k - 1] == Intent("PUBLICATION", Named("PUBLISH_ONCE"), id, true)
    && ProvedRead(env, plan, acts[k - 2], id, true, plan.assets)
  }

  /** The draft: created once, when none is continued, behind the absent prestate, the new journal and the intent. */
  ghost predicate CreatePlace(acts: seq<Event>, target: int, path: string, k: nat)
    requires k < |acts|
  {
    && k == 3 && target == 0 && acts[0] == Inspect(true) && acts[1] == OpenJournal(path, true)
    && acts[2] == Intent("DRAFT_STAGING", Named("CREATE_ONCE"), 0, true) && acts[3].CreateDraft?
  }

  lemma OpeningPlaces(plan: Plan, target: int, path: string, id: int)
    ensures var s, o := Script(plan, target, path, id), if target == 0 then 4 else 3;
            |s| >= o && forall k :: 0 <= k < o && WriteOf(s[k]).Some? ==> k == 3 && target == 0 && s[k].CreateDraft?
  {
    hide Behind;
    var s, opening := Script(plan, target, path, id), Opening(target, path, id);
    assert s[..|opening|] == opening;
    forall k | 0 <= k < |opening| ensures s[k] == opening[k] {
      assert s[..|opening|][k] == opening[k];
    }
  }

  lemma UploadPlaces(plan: Plan, target: int, path: string, id: int)
    ensures var s, o := Script(plan, target, path, id), if target == 0 then 4 else 3;
            |s| >= o + 4 * |plan.assets| && forall i :: 0 <= i < |plan.assets| ==> TransferAt(s, o + 4 * i, plan, id, i)
  {
    hide Transfers, Closing, Confirming;
    var s, o, n := Script(plan, target, path, id), if target == 0 then 4 else 3, |plan.assets|;
    TransfersAt(plan, id, n);
    forall i | 0 <= i < n ensures TransferAt(s, o + 4 * i, plan, id, i) {
      assert TransferAt(Transfers(plan, id, n), 4 * i, plan, id, i);
    }
  }

  lemma PublishPlaces(plan: Plan, target: int, path: string, id: int)
    ensures var s, at := Script(plan, target, path, id), (if target == 0 then 4 else 3) + 4 * |plan.assets|;
            forall k :: at <= k < |s| && WriteOf(s[k]).Some? ==> k == at + 2 && s[k].Publish?
  {
    hide Script;
    var s, at, n := Script(plan, target, path, id), (if target == 0 then 4 else 3) + 4 * |plan.assets|, |plan.assets|;
    PublicationScriptAt(plan, target, path, id);
    forall j | at + 4 <= j < at + 4 + n ensures WriteOf(s[j]).None? {
      assert s[at + 4 + (j - at - 4)] == PublicRead(plan.assets[j - at - 4], true);
    }
  }

  lemma TransferPlace(s: seq<Event>, at: nat, plan: Plan, id: int, i: nat, k: nat)
    requires i < |plan.assets| && TransferAt(s, at, plan, id, i) && at <= k < at + 4 && WriteOf(s[k]).Some?
    ensures k == at + 3 && s[k] == Upload(id, plan.assets[i], true)
  {
  }

  lemma ScriptPlaces(plan: Plan, target: int, path: string, id: int, k: nat)
    requires k < |Script(plan, target, path, id)| && WriteOf(Script(plan, target, path, id)[k]).Some?
    ensures var s, o, n := Script(plan, target, path, id), if target == 0 then 4 else 3, |plan.assets|;
            || (k == 3 && target == 0 && s[k].CreateDraft?)
            || (k == o + 4 * n + 2 && s[k].Publish?)
            || exists i :: 0 <= i < n && k == o + 4 * i + 3 && TransferAt(s, o + 4 * i, plan, id, i)
                           && s[k] == Upload(id, plan.assets[i], true)
  {
    hide Script, TransferAt;
    var s, o, n := Script(plan, target, path, id), if target == 0 then 4 else 3, |plan.assets|;
    if k < o {
      OpeningPlaces(plan, target, path, id);
    } else if k < o + 4 * n {
      UploadPlaces(plan, target, path, id);
      TransferPlace(s, o + 4 * ((k - o) / 4), plan, id, (k - o) / 4, k);
    } else {
      PublishPlaces(plan, target, path, id);
    }
  }

  lemma ConformsAt(env: Primitives, plan: Plan, acts: seq<Event>, script: seq<Event>, k: nat)
    requires Conforms(env, plan, acts, script) && k < |acts|
    ensures k < |script| && (Carries(env, plan, acts[k], script[k]) || Fails(env, plan, acts[k], script[k]))
    ensures forall j :: 0 <= j < k ==>
              if script[j].Read? then ProvedRead(env, plan, acts[j], script[j].id, script[j].draft, script[j].assets)
              else acts[j] == script[j]
  {
  }

  /** Whatever the provider does, each write of a run is the draft, the next upload or the publication, in its place. */
  lemma WritePlaces(env: Primitives, plan: Plan, target: int, path: string, id: int, acts: seq<Event>, k: nat)
    requires Conforms(env, plan, acts, Script(plan, target, path, id)) && k < |acts|
    ensures var o := if target == 0 then 4 else 3;
            && !acts[k].Delete?
            && (acts[k].CreateDraft? ==> CreatePlace(acts, target, path, k))
            && (acts[k].Upload? ==> exists i :: 0 <= i < |plan.assets| && UploadPlace(env, plan, acts, o, id, k, i))
            && (acts[k].Publish? ==> PublishPlace(env, plan, acts, o, id, k))
  {
    hide Conforms, Script, ProvedRead, Accepts, TransferAt, UploadPlace, PublishPlace, CreatePlace;
    var script, o := Script(plan, target, path, id), if target == 0 then 4 else 3;
    ConformsAt(env, plan, acts, script, k);
    SameWrite(env, plan, acts[k], script[k]);
    if WriteOf(script[k]).Some? {
      ScriptPlaces(plan, target, path, id, k);
      if acts[k].Upload? {
        var i :| 0 <= i < |plan.assets| && k == o + 4 * i + 3 && TransferAt(script, o + 4 * i, plan, id, i);
        PlacedUpload(env, plan, target, path, id, acts, k, i);
      } else if acts[k].Publish? {
        PlacedPublish(env, plan, target, path, id, acts, k);
      } else if acts[k].CreateDraft? {
        PlacedCreate(env, plan, target, path, id, acts);
      }
    }
  }

  lemma PlacedUpload(env: Primitives, plan: Plan, target: int, path: string, id: int, acts: seq<Event>, k: nat, i: nat)
    requires Conforms(env, plan, acts, Script(plan, target, path, id)) && k < |acts| && i < |plan.assets|
    requires var o := if target == 0 then 4 else 3;
             k == o + 4 * i + 3 && TransferAt(Script(plan, target, path, id), o + 4 * i, plan, id, i)
    ensures UploadPlace(env, plan, acts, if target == 0 then 4 else 3, id, k, i)
  {
    hide Conforms, Script, ProvedRead, Accepts;
    ConformsAt(env, plan, acts, Script(plan, target, path, id), k);
  }

  lemma PlacedPublish(env: Primitives, plan: Plan, target: int, path: string, id: int, acts: seq<Event>, k: nat)
    requires Conforms(env, plan, acts, Script(plan, target, path, id))
    requires k < |acts| && k == (if target == 0 then 4 else 3) + 4 * |plan.assets| + 2
    ensures PublishPlace(env, plan, acts, if target == 0 then 4 else 3, id, k)
  {
    hide Conforms, Script, ProvedRead, Accepts;
    ConformsAt(env, plan, acts, Script(plan, target, path, id), k);
    PublicationScriptAt(plan, target, path, id);
  }

  lemma PlacedCreate(env: Primitives, plan: Plan, target: int, path: string, id: int, acts: seq<Event>)
    requires Conforms(env, plan, acts, Script(plan, target, path, id)) && |acts| > 3 && target == 0
    ensures CreatePlace(acts, target, path, 3)
  {
    hide Conforms, Script, Opening, Accepts;
    ConformsAt(env, plan, acts, Script(plan, target, path, id), 3);
    OpeningScriptAt(plan, target, path, id);
  }

  lemma OpeningScriptAt(plan: Plan, target: int, path: string, id: int)
    requires target == 0
    ensures var s := Script(plan, target, path, id);
            && |s| > 3 && s[0] == Inspect(true) && s[1] == OpenJournal(path, true)
            && s[2] == Intent("DRAFT_STAGING", Named("CREATE_ONCE"), 0, true) && s[3] == CreateDraft(id, true)
  {
    hide Behind;
  }

  // ---------------------------------------------------------------- what holds for every run

  /**
   Whatever the provider does: the writes of a run are a prefix of the one-shot sequence, each announced by its own
   synced intent, nothing follows an error, and a publication follows a readback that accepted the complete draft.
   */
  lemma EveryRunIsOneShot(env: Primitives, plan: Plan, target: int, path: string, id: int, acts: seq<Event>)
    requires Conforms(env, plan, acts, Script(plan, target, path, id))
    ensures Writes(acts) <= OneShot(plan, target)
    ensures Announced(acts)
    ensures forall k :: 0 <= k < |acts| - 1 ==> acts[k].ok
    ensures forall k :: 0 <= k < |acts| && acts[k].Publish? ==>
              && k >= 2 && acts[k - 2].Read? && acts[k - 2].state.Some?
              && Accepts(env, acts[k - 2].state.value, acts[k - 2].downloads, plan, id, true, plan.assets)
  {
    hide Script, Announced, Writes, OneShot, Accepts;
    var script := Script(plan, target, path, id);
    ScriptIs(plan, target, path, id);
    ConformingWrites(env, plan, acts, script);
    ConformingAnnounced(env, plan, acts, script);
    ConformingStops(env, plan, acts, script);
    forall k | 0 <= k < |acts| && acts[k].Publish?
      ensures k >= 2 && acts[k - 2].Read? && acts[k - 2].state.Some?
              && Accepts(env, acts[k - 2].state.value, acts[k - 2].downloads, plan, id, true, plan.assets)
    {
      assert script[k].Publish?;
      assert Carries(env, plan, acts[k - 2], script[k - 2]);
    }
  }

  /** Publishing is dispatched only when the remote assets are exactly the planned ones. */
  lemma PublishNeedsBijection(env: Primitives, plan: Plan, target: int, path: string, id: int, acts: seq<Event>, k: nat)
    requires Conforms(env, plan, acts, Script(plan, target, path, id)) && Distinct(Names(plan.assets))
    requires k < |acts| && acts[k].Publish?
    ensures k >= 2 && acts[k - 2].Read? && acts[k - 2].state.Some? && acts[k - 2].state.value.release.Some?
    ensures var remote := acts[k - 2].state.value.release.value.assets;
            && |remote| == |plan.assets| && Elements(RemoteNames(remote)) == Elements(Names(plan.assets))
            && forall i :: 0 <= i < |remote| ==>
                 exists j :: 0 <= j < |plan.assets| && Holds(env, remote[i], acts[k - 2].downloads, plan.assets[j])
  {
    EveryRunIsOneShot(env, plan, target, path, id, acts);
    AcceptsIsBijection(env, acts[k - 2].state.value, acts[k - 2].downloads, plan, id, true, plan.assets);
  }

  // ---------------------------------------------------------------- runs sharing a journal path

  /** One run: what it did, and the journal files before and after it. */
  datatype Run = Run(env: Primitives, plan: Plan, target: int, path: string, id: int, acts: seq<Event>,
                     before: set<string>, after: set<string>)

  /** The contract of ExecutePublicationTarget, as a record of one run. */
  ghost predicate Recorded(r: Run) {
    && Conforms(r.env, r.plan, r.acts, Script(r.plan, r.target, r.path, r.id))
    && r.before <= r.after
    && (OpenJournal(r.path, true) in r.acts ==> r.path !in r.before && r.path in r.after)
  }

  /** Runs one after the other; nobody removes journal files. */
  ghost predicate History(runs: seq<Run>) {
    && (forall i :: 0 <= i < |runs| ==> Recorded(runs[i]))
    && (forall i, j :: 0 <= i < j < |runs| && j == i + 1 ==> runs[i].after <= runs[j].before)
  }

  lemma {:induction false} FilesStay(runs: seq<Run>, i: nat, j: nat)
    requires History(runs) && i < j < |runs|
    ensures runs[i].after <= runs[j].before
  {
    hide Recorded;
    if i < j - 1 {
      FilesStay(runs, i, j - 1);
      assert Recorded(runs[j - 1]) && runs[j - 1].after <= runs[j].before;
      BeforeAfter(runs[j - 1]);
    }
  }

  lemma BeforeAfter(r: Run)
    requires Recorded(r)
    ensures r.before <= r.after
  {
  }

  lemma QuietStart(script: seq<Event>, n: nat)
    requires n <= 2 <= |script| && WriteOf(script[0]).None? && WriteOf(script[1]).None?
    ensures Writes(script[..n]) == []
  {
    if n == 2 {
      WritesThen(script[..1], [script[1]]);
      assert script[..2] == script[..1] + [script[1]];
    }
  }

  /** A run that dispatched any write created the journal. */
  lemma WritingOpensJournal(r: Run)
    requires Recorded(r) && Writes(r.acts) != []
    ensures OpenJournal(r.path, true) in r.acts
  {
    hide Accepts, Transfers, Closing, Confirming, Writes;
    var script := Script(r.plan, r.target, r.path, r.id);
    ConformingWrites(r.env, r.plan, r.acts, script);
    if |r.acts| <= 2 {
      QuietStart(script, |r.acts|);
    } else {
      assert Carries(r.env, r.plan, r.acts[1], script[1]);
      assert r.acts[1] == OpenJournal(r.path, true);
    }
  }

  /** The writes all runs with this journal path dispatched. */
  function AllWrites(runs: seq<Run>, path: string): seq<Write> {
    if runs == [] then []
    else
      var last := runs[|runs| - 1];
      AllWrites(runs[..|runs| - 1], path) + if last.path == path then Writes(last.acts) else []
  }

  /** However often it is tried, one journal path yields at most one one-shot sequence of writes. */
  lemma {:induction false} OneSequencePerJournal(runs: seq<Run>, path: string)
    requires History(runs)
    ensures AllWrites(runs, path) == [] ||
            exists i :: 0 <= i < |runs| && runs[i].path == path && AllWrites(runs, path) == Writes(runs[i].acts)
                        && Writes(runs[i].acts) <= OneShot(runs[i].plan, runs[i].target)
  {
    hide Recorded, Writes, OneShot;
    if runs != [] {
      var n := |runs| - 1;
      var earlier, last := runs[..n], runs[n];
      OneSequencePerJournal(earlier, path);
      if last.path == path && Writes(last.acts) != [] {
        OnlyWriter(runs, path, n);
        RunWrites(last);
      }
    }
  }

  lemma RunWrites(r: Run)
    requires Recorded(r)
    ensures Writes(r.acts) <= OneShot(r.plan, r.target)
  {
    hide Conforms, Script, Writes, OneShot;
    EveryRunIsOneShot(r.env, r.plan, r.target, r.path, r.id, r.acts);
  }

  /** Before a writing run, no run with its path wrote. */
  lemma {:induction false} OnlyWriter(runs: seq<Run>, path: string, n: nat)
    requires History(runs) && n < |runs| && runs[n].path == path && Writes(runs[n].acts) != []
    ensures AllWrites(runs[..n], path) == []
  {
    hide Recorded, Writes;
    QuietBefore(runs, path, n, n);
  }

  lemma {:induction false} QuietBefore(runs: seq<Run>, path: string, n: nat, m: nat)
    requires History(runs) && m <= n < |runs| && runs[n].path == path && Writes(runs[n].acts) != []
    ensures AllWrites(runs[..m], path) == []
  {
    hide Recorded, Writes;
    if m > 0 {
      QuietBefore(runs, path, n, m - 1);
      assert runs[..m][..m - 1] == runs[..m - 1];
      if runs[m - 1].path == path && Writes(runs[m - 1].acts) != [] {
        Opened(runs[n]);
        Opened(runs[m - 1]);
        FilesStay(runs, m - 1, n);
      }
    }
  }

  lemma Opened(r: Run)
    requires Recorded(r) && Writes(r.acts) != []
    ensures r.path !in r.before && r.path in r.after
  {
    WritingOpensJournal(r);
  }
}
