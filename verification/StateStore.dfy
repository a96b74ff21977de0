/** The ConfigMap that holds a mux's state: loading, saving, ownership checks, and what
    happens when several muxes name the same object. */
module StateStore {
  import opened Wrappers
  import opened Text
  import opened Model
  import opened Claims

  datatype MuxKey = MuxKey(ns: string, name: string) {
    /** `mux_ref` */
    function RefText(): string {
      ns + "/" + name
    }

    predicate CleanNames() {
      Clean(ns) && Clean(name)
    }
  }

  /** The decoded state document: the mux it was written for, if stated, and its claims. */
  datatype Document = Document(mux: Option<MuxKey>, state: State)

  /** The object: its owner annotation, and its document, `None` if it does not decode. */
  datatype ConfigObject = ConfigObject(owner: Option<string>, document: Option<Document>)

  predicate ForeignAnnotation(me: MuxKey, config: ConfigObject) {
    config.owner.Some? && config.owner.value != "" && config.owner.value != me.RefText()
  }

  predicate ForeignDocument(me: MuxKey, document: Document) {
    document.mux.Some? && document.mux.value != me
  }

  /** What `load` returns for the object as it is. */
  function LoadResult(me: MuxKey, config: Option<ConfigObject>): Result<State> {
    match config
    case None => Ok(NoState)
    case Some(o) =>
      if ForeignAnnotation(me, o) then Err(ForeignOwner)
      else if o.document.None? then Err(BadEntry)
      else if ForeignDocument(me, o.document.value) then Err(ForeignOwner)
      else Ok(o.document.value.state)
  }

  /** What a mux writes: itself as the owner, in both places. */
  function Written(me: MuxKey, state: State): ConfigObject {
    ConfigObject(Some(me.RefText()), Some(Document(Some(me), state)))
  }

  /** The object after `save`, where `found` is what the preceding load saw: a patch
      needs the object, a creation needs its absence. */
  function SaveResult(me: MuxKey, found: bool, config: Option<ConfigObject>, state: State): Result<ConfigObject> {
    if found == config.Some? then Ok(Written(me, state)) else Err(WriteRejected)
  }

  /** The API server's side of one ConfigMap. */
  class ConfigMapApi {
    var config: Option<ConfigObject>

    constructor ()
      ensures config == None
    {
      config := None;
    }
  }

  class ConfigMapAllocationStore {
    const muxKey: MuxKey
    var found: bool

    constructor (muxKey: MuxKey)
      ensures this.muxKey == muxKey && !found
    {
      this.muxKey := muxKey;
      found := false;
    }

    /** `found` is set as soon as the object is seen, before its owner is checked. */
    method Load(api: ConfigMapApi) returns (state: Result<State>)
      modifies this`found
      ensures state == LoadResult(muxKey, api.config)
      ensures found == api.config.Some?
    {
      match api.config {
        case None =>
          found := false;
          return Ok(NoState);
        case Some(config) =>
          found := true;
          if ForeignAnnotation(muxKey, config) {
            return Err(ForeignOwner);
          }
          if config.document.None? {
            return Err(BadEntry);
          }
          if ForeignDocument(muxKey, config.document.value) {
            return Err(ForeignOwner);
          }
          return Ok(config.document.value.state);
      }
    }

    /** A failed save leaves the object alone. */
    method Save(api: ConfigMapApi, state: State) returns (ok: bool)
      modifies this`found, api`config
      ensures ok == SaveResult(muxKey, old(found), old(api.config), state).Ok?
      ensures api.config == if ok then Some(Written(muxKey, state)) else old(api.config)
      ensures ok ==> found
    {
      if found {
        if api.config.None? {
          return false;
        }
        api.config := Some(Written(muxKey, state));
      } else {
        if api.config.Some? {
          return false;
        }
        api.config := Some(Written(muxKey, state));
        found := true;
      }
      return true;
    }
  }

  // ---- several muxes, one name ----

  /** A pass between its load and its save has seen the object (`found`) or not. */
  datatype Phase = Idle | Loaded(found: bool)

  datatype System = System(config: Option<ConfigObject>, phases: map<MuxKey, Phase>) {
    function PhaseOf(m: MuxKey): Phase {
      if m in phases then phases[m] else Idle
    }
  }

  datatype Action =
    | LoadBy(mux: MuxKey)
    | SaveBy(mux: MuxKey, state: State)
    // the pass ends without saving
    | EndBy(mux: MuxKey)

  predicate Possible(s: System, a: Action) {
    a.mux.CleanNames() && (a.LoadBy? <==> s.PhaseOf(a.mux).Idle?)
  }

  function Act(s: System, a: Action): System
    requires Possible(s, a)
  {
    match a
    case LoadBy(m) =>
      var r := LoadResult(m, s.config);
      s.(phases := s.phases[m := if r.Ok? then Loaded(s.config.Some?) else Idle])
    case SaveBy(m, state) =>
      var r := SaveResult(m, s.PhaseOf(m).found, s.config, state);
      System(if r.Ok? then Some(r.value) else s.config, s.phases[m := Idle])
    case EndBy(m) => s.(phases := s.phases[m := Idle])
  }

  /** Only the creator's document is there, and only the creator is about to patch it. */
  ghost predicate OwnedBy(s: System, creator: MuxKey) {
    && creator.CleanNames() && s.config.Some? && s.config.value.document.Some?
    && s.config.value == Written(creator, s.config.value.document.value.state)
    && forall m :: s.PhaseOf(m) == Loaded(true) ==> m == creator
  }

  /** Nothing has been created yet, and nobody thinks otherwise. */
  ghost predicate Fresh(s: System) {
    s.config.None? && forall m :: s.PhaseOf(m) != Loaded(true)
  }

  lemma RefTextInjective(a: MuxKey, b: MuxKey)
    requires a.CleanNames() && b.CleanNames() && a.RefText() == b.RefText()
    ensures a == b
  {
    assert a.RefText() == a.ns + ['/'] + a.name && b.RefText() == b.ns + ['/'] + b.name;
    UniqueCut(a.ns, b.ns, a.name, b.name, '/');
  }

  /** A mux's document is refused to every other mux. */
  lemma OthersRefused(s: System, creator: MuxKey, m: MuxKey)
    requires OwnedBy(s, creator) && m.CleanNames() && m != creator
    ensures LoadResult(m, s.config) == Err(ForeignOwner)
  {
    var config := s.config.value;
    if m.RefText() == creator.RefText() {
      RefTextInjective(m, creator);
    }
    assert config.owner == Some(creator.RefText()) && '/' in creator.RefText() by {
      assert creator.RefText()[|creator.ns|] == '/';
    }
  }

  lemma ActOwned(s: System, creator: MuxKey, a: Action)
    requires OwnedBy(s, creator) && Possible(s, a)
    ensures OwnedBy(Act(s, a), creator)
    ensures a.mux != creator ==> Act(s, a).config == s.config
  {
    if a.LoadBy? && a.mux != creator {
      OthersRefused(s, creator, a.mux);
    }
    var t := Act(s, a);
    forall m | t.PhaseOf(m) == Loaded(true) ensures m == creator {
      if m != a.mux {
        assert t.PhaseOf(m) == s.PhaseOf(m);
      }
    }
  }

  lemma ActFresh(s: System, a: Action)
    requires Fresh(s) && Possible(s, a)
    ensures Fresh(Act(s, a)) || (a.SaveBy? && OwnedBy(Act(s, a), a.mux))
  {
    var t := Act(s, a);
    forall m ensures t.PhaseOf(m) != Loaded(true) {
      if m != a.mux {
        assert t.PhaseOf(m) == s.PhaseOf(m);
      }
    }
    if t.config.Some? {
      assert t.config == Some(Written(a.mux, a.state));
    }
  }

  ghost predicate Interleaving(trace: seq<System>, actions: seq<Action>) {
    |trace| == |actions| + 1
    && forall t | 0 <= t < |actions| :: Possible(trace[t], actions[t]) && trace[t + 1] == Act(trace[t], actions[t])
  }

  /** Up to any point either nothing was created, or the object has one owner. */
  lemma {:induction false} FreshOrOwned(trace: seq<System>, actions: seq<Action>, t: nat)
    requires Interleaving(trace, actions) && Fresh(trace[0]) && t < |trace|
    ensures Fresh(trace[t]) || exists creator :: OwnedBy(trace[t], creator)
  {
    hide Fresh, OwnedBy, Possible, Act;
    if t > 0 {
      FreshOrOwned(trace, actions, t - 1);
      if Fresh(trace[t - 1]) {
        ActFresh(trace[t - 1], actions[t - 1]);
      } else {
        var creator :| OwnedBy(trace[t - 1], creator);
        ActOwned(trace[t - 1], creator, actions[t - 1]);
      }
    }
  }

  lemma {:induction false} OwnerStays(trace: seq<System>, actions: seq<Action>, creator: MuxKey, t: nat, u: nat)
    requires Interleaving(trace, actions) && t <= u < |trace| && OwnedBy(trace[t], creator)
    ensures OwnedBy(trace[u], creator)
  {
    hide OwnedBy, Possible, Act;
    if t < u {
      OwnerStays(trace, actions, creator, t, u - 1);
      ActOwned(trace[u - 1], creator, actions[u - 1]);
    }
  }

  /** A step of `creator`, or one that is refused the claims and changes nothing. */
  ghost predicate OwnOrRefused(before: System, a: Action, after: System, creator: MuxKey) {
    a.mux != creator ==> after.config == before.config && LoadResult(a.mux, before.config) == Err(ForeignOwner)
  }

  lemma StepOwned(trace: seq<System>, actions: seq<Action>, creator: MuxKey, t: nat, u: nat)
    requires Interleaving(trace, actions) && t <= u < |actions| && OwnedBy(trace[t], creator)
    ensures OwnOrRefused(trace[u], actions[u], trace[u + 1], creator)
  {
    OwnerStays(trace, actions, creator, t, u);
    assert Possible(trace[u], actions[u]) && trace[u + 1] == Act(trace[u], actions[u]);
    hide Possible, Act, OwnedBy;
    ActOwned(trace[u], creator, actions[u]);
    if actions[u].mux != creator {
      assert actions[u].mux.CleanNames() by { CleanActor(trace[u], actions[u]); }
      OthersRefused(trace[u], creator, actions[u].mux);
    }
  }

  lemma CleanActor(s: System, a: Action)
    requires Possible(s, a)
    ensures a.mux.CleanNames()
  {}

  /** THEOREM (one owner under interleaving). When several muxes name one ConfigMap that
      does not exist at first, then however their loads and saves interleave: once it is
      there it has a creator, and from then on no step of another mux changes it, and
      every load by another mux is refused. */
  lemma OneOwner(trace: seq<System>, actions: seq<Action>, t: nat)
    requires Interleaving(trace, actions) && Fresh(trace[0]) && t < |trace| && trace[t].config.Some?
    ensures exists creator :: (OwnedBy(trace[t], creator)
      && forall u | t <= u < |actions| :: OwnOrRefused(trace[u], actions[u], trace[u + 1], creator))
  {
    FreshOrOwned(trace, actions, t);
    var creator :| OwnedBy(trace[t], creator);
    forall u: nat | t <= u < |actions| ensures OwnOrRefused(trace[u], actions[u], trace[u + 1], creator) {
      StepOwned(trace, actions, creator, t, u);
    }
  }

  /** THEOREM (nobody loads foreign claims). Whatever a load returns at any point of any
      interleaving is the empty document or what the same mux wrote. */
  lemma LoadsOwnClaims(trace: seq<System>, actions: seq<Action>, t: nat, m: MuxKey)
    requires Interleaving(trace, actions) && Fresh(trace[0]) && t < |trace| && m.CleanNames()
    ensures LoadResult(m, trace[t].config).Ok? ==>
      trace[t].config.None? || trace[t].config == Some(Written(m, LoadResult(m, trace[t].config).value))
  {
    FreshOrOwned(trace, actions, t);
    if !Fresh(trace[t]) {
      var creator :| OwnedBy(trace[t], creator);
      if m != creator {
        OthersRefused(trace[t], creator, m);
      }
    }
  }


  // ---- what the owner gets back ----

  /** THEOREM (which objects load). An existing object loads as a state exactly if its owner
      annotation is missing, empty or the mux's own, its document decodes to that state, and
      the document names the mux itself or none. */
  lemma LoadsIff(me: MuxKey, o: ConfigObject, state: State)
    ensures LoadResult(me, Some(o)) == Ok(state) <==>
      (o.owner == None || o.owner == Some("") || o.owner == Some(me.ns + "/" + me.name))
      && (o.document == Some(Document(None, state)) || o.document == Some(Document(Some(me), state)))
    ensures LoadResult(me, None) == Ok(NoState)
  {
    if o.document.Some? {
      var d := o.document.value;
      assert d == Document(d.mux, d.state);
      assert d.mux.Some? ==> d.mux == Some(d.mux.value);
    }
    assert o.owner.Some? ==> o.owner == Some(o.owner.value);
  }

  /** The action is a save by `m` that succeeds. */
  predicate SavesFor(s: System, a: Action, m: MuxKey) {
    a.SaveBy? && a.mux == m && s.PhaseOf(m).Loaded? && SaveResult(m, s.PhaseOf(m).found, s.config, a.state).Ok?
  }

  lemma OwnerIsWriter(s: System, creator: MuxKey, m: MuxKey, state: State)
    requires OwnedBy(s, creator) && m.CleanNames() && s.config == Some(Written(m, state))
    ensures creator == m
  {
    RefTextInjective(creator, m);
  }

  /** After its own successful save the object is what the mux wrote. */
  lemma SavedObject(trace: seq<System>, actions: seq<Action>, t: nat, m: MuxKey)
    requires Interleaving(trace, actions) && Fresh(trace[0]) && t < |actions|
    requires Possible(trace[t], actions[t]) && SavesFor(trace[t], actions[t], m)
    ensures trace[t + 1].config == Some(Written(m, actions[t].state)) && OwnedBy(trace[t + 1], m)
  {
    hide Fresh;
    CleanActor(trace[t], actions[t]);
    FreshOrOwned(trace, actions, t + 1);
    assert trace[t + 1].config == Some(Written(m, actions[t].state));
    assert !Fresh(trace[t + 1]) by { NotFresh(trace[t + 1]); }
    var creator :| OwnedBy(trace[t + 1], creator);
    OwnerIsWriter(trace[t + 1], creator, m, actions[t].state);
  }

  lemma NotFresh(s: System)
    requires s.config.Some?
    ensures !Fresh(s)
  {}

  lemma OtherStep(s: System, a: Action, m: MuxKey)
    requires OwnedBy(s, m) && Possible(s, a) && !SavesFor(s, a, m)
    ensures Act(s, a).config == s.config
  {
    ActOwned(s, m, a);
  }

  /** THEOREM (the owner gets its claims back). After a mux has saved a state, and until it
      saves another, every load by it returns exactly that state, whatever the other muxes
      that name the object do in between. */
  lemma {:induction false} OwnerLoadsBack(trace: seq<System>, actions: seq<Action>, t: nat, u: nat, m: MuxKey)
    requires Interleaving(trace, actions) && Fresh(trace[0]) && t < u < |trace|
    requires SavesFor(trace[t], actions[t], m) && forall v | t < v < u :: !SavesFor(trace[v], actions[v], m)
    ensures LoadResult(m, trace[u].config) == Ok(actions[t].state)
    ensures trace[u].config == Some(Written(m, actions[t].state)) && OwnedBy(trace[u], m)
  {
    hide Fresh, OwnedBy, Act;
    if u == t + 1 {
      SavedObject(trace, actions, t, m);
    } else {
      OwnerLoadsBack(trace, actions, t, u - 1, m);
      assert !SavesFor(trace[u - 1], actions[u - 1], m);
      assert Possible(trace[u - 1], actions[u - 1]) && trace[u] == Act(trace[u - 1], actions[u - 1]);
      OtherStep(trace[u - 1], actions[u - 1], m);
      ActOwned(trace[u - 1], m, actions[u - 1]);
    }
    LoadsIff(m, Written(m, actions[t].state), actions[t].state);
  }

  /** THEOREM (the first save creates). As long as there is no object, a mux that has looked
      for it creates it with its save. */
  lemma FirstSaveCreates(s: System, m: MuxKey, state: State)
    requires Fresh(s) && s.PhaseOf(m).Loaded? && m.CleanNames()
    ensures SavesFor(s, SaveBy(m, state), m) && Act(s, SaveBy(m, state)).config == Some(Written(m, state))
  {}

  /** THEOREM (the owner may save). A mux that has loaded the existing object since it last
      acted can save, whatever the others did meanwhile. */
  lemma {:induction false} OwnerSaves(trace: seq<System>, actions: seq<Action>, t: nat, u: nat, m: MuxKey, state: State)
    requires Interleaving(trace, actions) && Fresh(trace[0]) && t < u < |trace|
    requires actions[t] == LoadBy(m) && trace[t].config.Some? && LoadResult(m, trace[t].config).Ok?
    requires forall v | t < v < u :: actions[v].mux != m
    ensures trace[u].PhaseOf(m) == Loaded(true) && trace[u].config.Some?
    ensures SavesFor(trace[u], SaveBy(m, state), m)
  {
    hide Fresh, OwnedBy;
    if u > t + 1 {
      OwnerSaves(trace, actions, t, u - 1, m, state);
      assert trace[u] == Act(trace[u - 1], actions[u - 1]) && actions[u - 1].mux != m;
    } else {
      assert trace[u] == Act(trace[t], actions[t]);
    }
  }

  /** THEOREM (either note suffices). What a mux wrote stays refused to every other mux if
      one of its two notes of ownership, the annotation or the one inside the document, is
      removed. */
  lemma EitherNoteProtects(m: MuxKey, other: MuxKey, state: State)
    requires m.CleanNames() && other.CleanNames() && m != other
    ensures LoadResult(other, Some(Written(m, state).(owner := None))) == Err(ForeignOwner)
    ensures LoadResult(other, Some(Written(m, state).(owner := Some("")))) == Err(ForeignOwner)
    ensures LoadResult(other, Some(Written(m, state).(document := Some(Document(None, state))))) == Err(ForeignOwner)
  {
    if m.RefText() == other.RefText() {
      RefTextInjective(m, other);
    }
    assert m.RefText() != "" by {
      assert m.RefText() == m.ns + ("/" + m.name) && |m.RefText()| >= 1;
    }
  }
}
