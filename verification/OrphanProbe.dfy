/**
  _default_orphan_probe of src/drc_agent/infrastructure/resource_arbiter.py: may a slot whose lock is free
  be taken over? The lease protocol needs a probe that never overlooks living work; this is when it does not.
 */
module OrphanProbe {
  import opened Basics

  /** A process that ran at some time; start ticks tell apart the users of one pid within one boot. */
  datatype Process = Process(host: nat, boot: nat, pid: nat, ticks: nat)

  datatype Stat = Stat(ticks: nat, zombie: bool)

  /** What the probing host sees, and which processes really live, anywhere. */
  datatype World = World(here: nat, boot: nat, bootReadable: bool, stats: map<nat, Stat>, living: set<Process>)

  /** The four fields of an owner or a worker in slot metadata; pid 0 stands for none. */
  datatype Identity = Identity(host: Option<nat>, pid: nat, ticks: Option<nat>, boot: Option<nat>)

  /** container: the name of the attempt's container is on record. */
  datatype Metadata = Metadata(eda: bool, owner: Identity, worker: Identity, container: bool)

  /** The answer of docker inspect; None when the call fails or times out. */
  type Inspection = Option<bool>

  ghost predicate Consistent(w: World) {
    forall p <- w.living :: p.host == w.here ==>
      p.boot == w.boot && p.pid in w.stats && w.stats[p.pid] == Stat(p.ticks, false)
  }

  /** The fields were filled in for p; ticks and boot id may have been unreadable then. */
  predicate Records(id: Identity, p: Process) {
    && id.host == Some(p.host) && id.pid == p.pid != 0
    && (id.ticks.Some? ==> id.ticks.value == p.ticks) && (id.boot.Some? ==> id.boot.value == p.boot)
  }

  // ----- The probe

  /** _process_identity_alive: None when this host cannot tell. */
  function IdentityAlive(w: World, id: Identity): Option<bool> {
    if id.pid == 0 || id.host != Some(w.here) then None
    else if id.boot.Some? && w.bootReadable && id.boot.value != w.boot then Some(false)
    else if id.pid !in w.stats || w.stats[id.pid].zombie then Some(false)
    else Some(id.ticks.None? || w.stats[id.pid].ticks == id.ticks.value)
  }

  /** _owned_container_active: a failed inspection counts as no container. */
  function ContainerActive(m: Metadata, inspection: Inspection): bool {
    m.container && inspection == Some(true)
  }

  method Probe(w: World, m: Metadata, inspection: Inspection) returns (owned: bool)
    ensures owned <==> Owned(w, m, inspection)
  {
    var identities := [m.worker, m.owner];
    for i := 0 to |identities|
      invariant forall j :: 0 <= j < i ==> IdentityAlive(w, identities[j]) != Some(true)
    {
      if IdentityAlive(w, identities[i]) == Some(true) {
        assert identities[i] == m.worker || identities[i] == m.owner;
        return true;
      }
    }
    assert IdentityAlive(w, identities[0]) != Some(true) && IdentityAlive(w, identities[1]) != Some(true);
    if ContainerActive(m, inspection) {
      return true;
    }
    if m.eda && m.worker.pid != 0 && m.worker.host != Some(w.here) {
      return true;
    }
    owned := false;
  }

  ghost predicate Owned(w: World, m: Metadata, inspection: Inspection) {
    || IdentityAlive(w, m.worker) == Some(true) || IdentityAlive(w, m.owner) == Some(true)
    || ContainerActive(m, inspection) || RemoteEda(m, w.here)
  }

  /** An EDA worker on another host counts as alive. */
  predicate RemoteEda(m: Metadata, here: nat) {
    m.eda && m.worker.pid != 0 && m.worker.host != Some(here)
  }

  // ----- Living work

  /** m was written by process o, and then possibly for the worker process x. */
  ghost predicate Describes(m: Metadata, o: Process, x: Process) {
    Records(m.owner, o) && (m.worker.pid != 0 ==> Records(m.worker, x))
  }

  /** containerAlive: the container on record really runs. */
  ghost predicate Living(w: World, m: Metadata, o: Process, x: Process, containerAlive: bool) {
    o in w.living || (m.worker.pid != 0 && x in w.living) || (m.container && containerAlive)
  }

  /** An inspection that answers tells the truth. */
  ghost predicate Truthful(inspection: Inspection, containerAlive: bool) {
    inspection.Some? ==> inspection.value == containerAlive
  }

  /** A process of this host is never reported dead while it lives, even if ticks or boot id are missing. */
  lemma LocalIsSeen(w: World, id: Identity, p: Process)
    requires Consistent(w) && Records(id, p) && p.host == w.here && p in w.living
    ensures IdentityAlive(w, id) == Some(true)
  {}

  /** With ticks and boot id on record, a local process is reported alive only while it lives, or as its own zombie. */
  lemma LocalIsExact(w: World, id: Identity, p: Process)
    requires Consistent(w) && Records(id, p) && p.host == w.here && id.ticks.Some? && id.boot.Some? && w.bootReadable
    requires p.boot == w.boot && p.pid in w.stats && w.stats[p.pid].ticks == p.ticks ==>
               (p in w.living <==> !w.stats[p.pid].zombie)
    ensures IdentityAlive(w, id) == Some(true) <==> p in w.living
  {}

  predicate AllLocal(m: Metadata, here: nat) {
    m.owner.host == Some(here) && (m.worker.pid != 0 ==> m.worker.host == Some(here))
  }

  /** What an operator can check: a remote EDA worker; or all is local and the container, if any, can be inspected. */
  predicate Covered(m: Metadata, here: nat, inspection: Inspection) {
    || RemoteEda(m, here) || ContainerActive(m, inspection)
    || (AllLocal(m, here) && (m.container ==> inspection.Some?))
  }

  ghost predicate SoundOn(m: Metadata, here: nat, inspection: Inspection) {
    forall w: World, o: Process, x: Process, containerAlive: bool {:trigger Living(w, m, o, x, containerAlive)} ::
      w.here == here && Consistent(w) && Describes(m, o, x) && Truthful(inspection, containerAlive)
      && Living(w, m, o, x, containerAlive)
      ==> Owned(w, m, inspection)
  }

  /** The probe overlooks no living work exactly when the record is covered on the probing host. */
  lemma SoundIffCovered(m: Metadata, here: nat, inspection: Inspection, o: Process, x: Process)
    requires Describes(m, o, x)
    ensures SoundOn(m, here, inspection) <==> Covered(m, here, inspection)
  {
    if Covered(m, here, inspection) {
      forall w: World, o: Process, x: Process, containerAlive: bool |
        w.here == here && Consistent(w) && Describes(m, o, x) && Truthful(inspection, containerAlive)
        && Living(w, m, o, x, containerAlive)
        ensures Owned(w, m, inspection)
      {
        CoveredIsSeen(w, m, inspection, o, x, containerAlive);
      }
    } else {
      var w, containerAlive := Overlooked(m, here, inspection, o, x);
      assert Living(w, m, o, x, containerAlive) && !Owned(w, m, inspection);
    }
  }

  lemma CoveredIsSeen(w: World, m: Metadata, inspection: Inspection, o: Process, x: Process, containerAlive: bool)
    requires Consistent(w) && Describes(m, o, x) && Truthful(inspection, containerAlive)
    requires Living(w, m, o, x, containerAlive) && Covered(m, w.here, inspection)
    ensures Owned(w, m, inspection)
  {
    if o in w.living && o.host == w.here {
      LocalIsSeen(w, m.owner, o);
    }
    if m.worker.pid != 0 && x in w.living && x.host == w.here {
      LocalIsSeen(w, m.worker, x);
    }
  }

  /** Living work that the probe overlooks: a process on another host, or a container that cannot be inspected. */
  lemma Overlooked(m: Metadata, here: nat, inspection: Inspection, o: Process, x: Process)
    returns (w: World, containerAlive: bool)
    requires Describes(m, o, x) && !Covered(m, here, inspection)
    ensures w.here == here && Consistent(w) && Truthful(inspection, containerAlive)
    ensures Living(w, m, o, x, containerAlive) && !Owned(w, m, inspection)
  {
    containerAlive := inspection.None? || inspection.value;
    if m.owner.host != Some(here) {
      w := World(here, 0, true, map[], {o});
    } else if !AllLocal(m, here) {
      w := World(here, 0, true, map[], {x});
    } else {
      w := World(here, 0, true, map[], {});
    }
  }

  /** Whatever the inspection answers: with a container on record, only a remote EDA worker makes the probe sound. */
  lemma SoundWhateverDockerSays(m: Metadata, here: nat, o: Process, x: Process)
    requires Describes(m, o, x)
    ensures (forall inspection :: SoundOn(m, here, inspection)) <==>
            RemoteEda(m, here) || (AllLocal(m, here) && !m.container)
  {
    forall inspection ensures SoundOn(m, here, inspection) <==> Covered(m, here, inspection) {
      SoundIffCovered(m, here, inspection, o, x);
    }
    assert Covered(m, here, None) <==> RemoteEda(m, here) || (AllLocal(m, here) && !m.container);
  }

  // ----- When the slot is freed

  /** The process table of this host shows a user of the recorded pid that may be the recorded process. */
  ghost predicate Seen(w: World, id: Identity) {
    && id.pid != 0 && id.host == Some(w.here) && id.pid in w.stats && !w.stats[id.pid].zombie
    && (id.boot.Some? && w.bootReadable ==> id.boot == Some(w.boot))
    && (id.ticks.Some? ==> id.ticks == Some(w.stats[id.pid].ticks))
  }

  /**
    The slot is freed exactly when neither process is seen here, no running container is reported, and no EDA worker
    is recorded on another host.
   */
  lemma FreedIff(w: World, m: Metadata, inspection: Inspection)
    ensures !Owned(w, m, inspection) <==>
            && !Seen(w, m.worker) && !Seen(w, m.owner) && (m.container ==> inspection != Some(true))
            && (m.eda ==> m.worker.pid == 0 || m.worker.host == Some(w.here))
  {}

  /** Written on this host, with ticks and boot id. */
  ghost predicate Pinned(w: World, id: Identity) {
    id.host == Some(w.here) && id.ticks.Some? && id.boot.Some?
  }

  /** The process table tells whether p lives. */
  ghost predicate Tells(w: World, p: Process) {
    p.boot == w.boot && p.pid in w.stats && w.stats[p.pid].ticks == p.ticks ==>
      (p in w.living <==> !w.stats[p.pid].zombie)
  }

  /** With full local identities and an answered inspection, the slot stays taken exactly while its work lives. */
  lemma OwnedIffLiving(w: World, m: Metadata, inspection: Inspection, o: Process, x: Process, containerAlive: bool)
    requires Consistent(w) && w.bootReadable && Describes(m, o, x) && Truthful(inspection, containerAlive)
    requires Pinned(w, m.owner) && Tells(w, o) && (m.worker.pid != 0 ==> Pinned(w, m.worker) && Tells(w, x))
    requires m.container ==> inspection.Some?
    ensures Owned(w, m, inspection) <==> Living(w, m, o, x, containerAlive)
  {
    LocalIsExact(w, m.owner, o);
    if m.worker.pid != 0 {
      LocalIsExact(w, m.worker, x);
    }
  }
}
