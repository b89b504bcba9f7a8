/** The release provider, the attempt journal and the trace of everything a run does to them. */
module Provider {
  import opened Text
  import opened Readback

  /** The action an intent names. */
  datatype Action = Named(text: string) | DeleteAsset(assetId: int)

  datatype Event =
    | Inspect(ok: bool)
    | Read(id: int, draft: bool, assets: seq<Asset>, pin: Pin, state: Option<State>, downloads: Downloads, ok: bool)
    | OpenJournal(path: string, ok: bool)
    | OpenAsset(asset: Asset, ok: bool)
    | Intent(phase: string, action: Action, id: int, ok: bool)
    | CreateDraft(id: int, ok: bool)
    | Upload(id: int, asset: Asset, ok: bool)
    | Publish(id: int, ok: bool)
    | Delete(assetId: int, ok: bool)
    | PublicRead(asset: Asset, ok: bool)

  // ---------------------------------------------------------------- scripts

  /** The event carries out the scripted step. A readback must have proved its inventory. */
  ghost predicate Carries(env: Primitives, plan: Plan, e: Event, s: Event) {
    if s.Read? then
      && e.Read? && e.ok && e.id == s.id && e.draft == s.draft && e.assets == s.assets && e.state.Some?
      && Accepts(env, e.state.value, e.downloads, plan, e.id, e.draft, e.assets)
      && e.pin == s.pin && PinHolds(e.state.value, e.pin)
    else e == s
  }

  /** The event is the scripted step, attempted and failed: a readback had no state or an inventory that is not it. */
  ghost predicate Fails(env: Primitives, plan: Plan, e: Event, s: Event) {
    match s
    case Read(id, draft, assets, pin, _, _, _) =>
      && e.Read? && !e.ok && e.id == id && e.draft == draft && e.assets == assets && e.pin == pin
      && (e.state.Some? ==> !Accepts(env, e.state.value, e.downloads, plan, id, draft, assets) || !PinHolds(e.state.value, pin))
    case CreateDraft(_, _) => e.CreateDraft? && !e.ok
    case Inspect(_) => e == Inspect(false)
    case OpenJournal(path, _) => e == OpenJournal(path, false)
    case OpenAsset(asset, _) => e == OpenAsset(asset, false)
    case Intent(phase, action, id, _) => e == Intent(phase, action, id, false)
    case Upload(id, asset, _) => e == Upload(id, asset, false)
    case Publish(id, _) => e == Publish(id, false)
    case Delete(assetId, _) => e == Delete(assetId, false)
    case PublicRead(asset, _) => e == PublicRead(asset, false)
  }

  /** The run follows the script and stops at the latest at its first failure. */
  ghost predicate Conforms(env: Primitives, plan: Plan, acts: seq<Event>, script: seq<Event>) {
    && |acts| <= |script|
    && forall k :: 0 <= k < |acts| ==>
         Carries(env, plan, acts[k], script[k]) || (k == |acts| - 1 && Fails(env, plan, acts[k], script[k]))
  }

  /** The run ends with a failed step. */
  predicate Stops(acts: seq<Event>) {
    acts != [] && !acts[|acts| - 1].ok
  }

  /** The run carried out the whole script. */
  ghost predicate Completes(env: Primitives, plan: Plan, acts: seq<Event>, script: seq<Event>) {
    |acts| == |script| && forall k :: 0 <= k < |acts| ==> Carries(env, plan, acts[k], script[k])
  }

  lemma ConformsThen(env: Primitives, plan: Plan, done: seq<Event>, first: seq<Event>, acts: seq<Event>,
                     script: seq<Event>)
    requires Completes(env, plan, done, first) && Conforms(env, plan, acts, script)
    ensures Conforms(env, plan, done + acts, first + script)
    ensures Completes(env, plan, acts, script) ==> Completes(env, plan, done + acts, first + script)
  {
  }

  /** A run that stopped in the first part of a script stopped in the whole script. */
  lemma ConformsLonger(env: Primitives, plan: Plan, acts: seq<Event>, script: seq<Event>, rest: seq<Event>)
    requires Conforms(env, plan, acts, script)
    ensures Conforms(env, plan, acts, script + rest)
  {
  }

  // ---------------------------------------------------------------- the provider

  /** The provider's choices for one call. */
  datatype Answer = Answer(state: Option<State>, downloads: Downloads, ok: bool, id: int, applied: bool, bytes: Option<Bytes>)

  function WithAsset(s: State, a: RemoteAsset): State {
    if s.release.None? then s
    else s.(release := Some(s.release.value.(assets := s.release.value.assets + [a])))
  }

  function WithoutId(remote: seq<RemoteAsset>, id: int): seq<RemoteAsset> {
    if remote == [] then [] else (if remote[0].id == id then [] else [remote[0]]) + WithoutId(remote[1..], id)
  }

  lemma {:induction false} WithoutIdIs(remote: seq<RemoteAsset>, id: int)
    ensures forall a :: a in WithoutId(remote, id) <==> a in remote && a.id != id
  {
    if remote != [] {
      WithoutIdIs(remote[1..], id);
      assert remote == [remote[0]] + remote[1..];
    }
  }

  function WithoutAsset(s: State, id: int): State {
    if s.release.None? then s
    else s.(release := Some(s.release.value.(assets := WithoutId(s.release.value.assets, id))))
  }

  class ReleaseService {
    const env: Primitives
    const answers: nat -> Answer
    const honest: bool
    var step: nat
    var remote: State
    var stored: Downloads
    ghost var trace: seq<Event>

    constructor (env: Primitives, answers: nat -> Answer, honest: bool, remote: State, stored: Downloads)
      ensures this.env == env && this.answers == answers && this.honest == honest && this.remote == remote
      ensures this.stored == stored && trace == [] && step == 0
    {
      this.env, this.answers, this.honest, this.remote, this.stored := env, answers, honest, remote, stored;
      step, trace := 0, [];
    }

    /** A release readback with every download it needs; an honest provider may fail, but not lie. */
    method ReadRelease(plan: Plan, id: int, draft: bool, assets: seq<Asset>, pin: Pin)
      returns (ok: bool, state: Option<State>, ghost e: Event)
      modifies this`step, this`trace
      ensures trace == old(trace) + [e]
      ensures ok ==> state.Some? && Carries(env, plan, e, Read(id, draft, assets, pin, None, map[], true))
      ensures ok ==> e.state == state
      ensures !ok ==> Fails(env, plan, e, Read(id, draft, assets, pin, None, map[], true))
      ensures e.Read? && e.ok == ok && e.downloads == (if honest then stored else answers(old(step)).downloads)
      ensures e.state == if honest && answers(old(step)).state.Some? then Some(remote) else answers(old(step)).state
      ensures honest && ok ==> state == Some(remote) && e.downloads == stored
      ensures honest ==>
                (ok <==> && answers(old(step)).state.Some?
                         && Accepts(env, remote, stored, plan, id, draft, assets) && PinHolds(remote, pin))
      ensures step == old(step) + 1
    {
      var a := answers(step);
      step := step + 1;
      state := if honest && a.state.Some? then Some(remote) else a.state;
      var downloads := if honest then stored else a.downloads;
      ok := false;
      if state.Some? {
        ok := ReadbackState(env, state.value, downloads, plan, id, draft, assets);
        if ok {
          ok := CheckPin(state.value, pin);
        }
      }
      e := Read(id, draft, assets, pin, state, downloads, ok);
      trace := trace + [e];
    }

    /** The publication prestate: the tag in place and no release. */
    method InspectAbsent(plan: Plan) returns (ok: bool)
      modifies this`step, this`trace
      ensures trace == old(trace) + [Inspect(ok)]
      ensures ok <==> var a := answers(old(step)).state;
                      a.Some? && a.value.tagCommit == plan.commit && a.value.release.None?
    {
      var a := answers(step);
      step := step + 1;
      ok := a.state.Some? && a.state.value.tagCommit == plan.commit && a.state.value.release.None?;
      trace := trace + [Inspect(ok)];
    }

    /** A bare inspection of the release. */
    method InspectState() returns (state: Option<State>)
      modifies this`step, this`trace
      ensures trace == old(trace) + [Inspect(state.Some?)] && step == old(step) + 1
      ensures state == if honest && answers(old(step)).state.Some? then Some(remote) else answers(old(step)).state
    {
      var a := answers(step);
      step := step + 1;
      state := if honest && a.state.Some? then Some(remote) else a.state;
      trace := trace + [Inspect(state.Some?)];
    }

    /** Records an attempt to create the journal. */
    ghost method NoteJournal(path: string, ok: bool)
      modifies this`trace
      ensures trace == old(trace) + [OpenJournal(path, ok)]
    {
      trace := trace + [OpenJournal(path, ok)];
    }

    /** Appends one intent to the attempt journal and syncs it. */
    method WriteIntent(phase: string, action: Action, id: int) returns (ok: bool)
      modifies this`step, this`trace
      ensures trace == old(trace) + [Intent(phase, action, id, ok)] && ok == answers(old(step)).ok
    {
      ok := answers(step).ok;
      step := step + 1;
      trace := trace + [Intent(phase, action, id, ok)];
    }

    /** Opens the local bytes of one asset. */
    method OpenLocal(asset: Asset) returns (ok: bool)
      modifies this`step, this`trace
      ensures trace == old(trace) + [OpenAsset(asset, ok)] && ok == answers(old(step)).ok
    {
      ok := answers(step).ok;
      step := step + 1;
      trace := trace + [OpenAsset(asset, ok)];
    }

    method DispatchCreate() returns (ok: bool, id: int)
      modifies this`step, this`trace
      ensures trace == old(trace) + [CreateDraft(id, ok)]
      ensures id == answers(old(step)).id && (ok <==> answers(old(step)).ok && id >= 1)
    {
      id := answers(step).id;
      ok := answers(step).ok && id >= 1;
      step := step + 1;
      trace := trace + [CreateDraft(id, ok)];
    }

    /** An honest provider stores a new asset under an unused positive id, or nothing. */
    method DispatchUpload(id: int, asset: Asset) returns (ok: bool, ghost applied: bool)
      modifies this
      ensures trace == old(trace) + [Upload(id, asset, ok)] && ok == answers(old(step)).ok
      ensures !applied ==> remote == old(remote) && stored == old(stored)
      ensures applied ==> honest && exists added: RemoteAsset, bytes ::
                && remote == WithAsset(old(remote), added) && stored == old(stored)[added.id := bytes]
                && Stores(env, old(remote), old(stored), added, bytes, asset)
    {
      var a := answers(step);
      ok := a.ok;
      step := step + 1;
      trace := trace + [Upload(id, asset, ok)];
      applied := false;
      if honest && a.applied && a.bytes.Some? {
        var added := RemoteAsset(a.id, asset.name, asset.size, "uploaded", "sha256:" + asset.sha256);
        if Stores(env, remote, stored, added, a.bytes.value, asset) {
          remote := WithAsset(remote, added);
          stored := stored[added.id := a.bytes.value];
          applied := true;
        }
      }
    }

    method DispatchPublish(id: int) returns (ok: bool)
      modifies this`step, this`trace
      ensures trace == old(trace) + [Publish(id, ok)] && ok == answers(old(step)).ok
    {
      ok := answers(step).ok;
      step := step + 1;
      trace := trace + [Publish(id, ok)];
    }

    /** An honest provider removes the asset, or nothing. */
    method DispatchDelete(assetId: int) returns (ok: bool, ghost applied: bool)
      modifies this
      ensures trace == old(trace) + [Delete(assetId, ok)] && ok == answers(old(step)).ok && stored == old(stored)
      ensures applied ==> honest && remote == WithoutAsset(old(remote), assetId)
      ensures !applied ==> remote == old(remote)
    {
      var a := answers(step);
      ok := a.ok;
      step := step + 1;
      trace := trace + [Delete(assetId, ok)];
      applied := honest && a.applied;
      if honest && a.applied {
        remote := WithoutAsset(remote, assetId);
      }
    }

    /** One credential-free public download compared with the expected bytes. */
    method ReadPublic(asset: Asset) returns (ok: bool)
      modifies this`step, this`trace
      ensures trace == old(trace) + [PublicRead(asset, ok)]
      ensures ok <==> var b := answers(old(step)).bytes;
                      b.Some? && |b.value| == asset.size && env.sha256(b.value) == asset.sha256
    {
      var a := answers(step);
      ok := a.bytes.Some? && |a.bytes.value| == asset.size && env.sha256(a.bytes.value) == asset.sha256;
      step := step + 1;
      trace := trace + [PublicRead(asset, ok)];
    }
  }

  /** What an honest provider stores for an upload: the uploaded bytes, under an id it has not used. */
  predicate Stores(env: Primitives, s: State, stored: Downloads, added: RemoteAsset, bytes: Bytes, asset: Asset) {
    && added.id >= 1 && added.name == asset.name && added.size == asset.size && added.state == "uploaded"
    && added.digest == "sha256:" + asset.sha256 && |bytes| == asset.size && env.sha256(bytes) == asset.sha256
    && added.id !in stored
    && (s.release.Some? ==> forall i :: 0 <= i < |s.release.value.assets| ==>
          s.release.value.assets[i].id != added.id && s.release.value.assets[i].name != added.name)
  }

  /** The journal files that exist. Opening one is exclusive creation. */
  class Journals {
    var files: set<string>

    constructor ()
      ensures files == {}
    {
      files := {};
    }

    method Open(path: string) returns (ok: bool)
      modifies this
      ensures ok <==> path !in old(files)
      ensures files == old(files) + {path}
    {
      ok := path !in files;
      files := files + {path};
    }
  }
}
