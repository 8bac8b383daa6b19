/** The life of a pipe: its two ends are created and destroyed together, whatever the order of opens and closes.

    An end is kept alive by its opens, or, while it is closed, by a reference from the other end. */
module PipeLifetime {

  /** A pipe end (struct netmap_pipe_adapter), as far as its life goes. */
  class End {
    /** na_refcount */
    var refs: nat
    /** peer_ref: this end holds a reference to the other one. */
    var peerRef: bool
    /** active_fds */
    var active: nat
    /** NAF_NETMAP_ON */
    var on: bool
    /** The rings exist, and the kernel rings point to them rather than hide them. */
    var rings: bool
    var shown: bool
    /** The adapter has been freed. */
    var freed: bool

    constructor ()
      ensures refs == 0 && !peerRef && active == 0 && !on && !rings && !shown && !freed
    {
      refs, peerRef, active, on, rings, shown, freed := 0, false, 0, false, false, false, false;
    }

    /** netmap_mem_rings_delete: frees the rings that are not hidden. */
    method DeleteRings()
      requires shown ==> rings
      modifies this`rings, this`shown
      ensures !shown && rings == (old(rings) && !old(shown))
    {
      if shown {
        rings, shown := false, false;
      }
    }
  }

  class Parent {
    var refs: nat
    constructor (r: nat)
      ensures refs == r
    {
      refs := r;
    }
  }

  /** One end of an existing pipe, between system calls: it has one reference for each open and one when the other end
      holds it, and it holds the other end exactly when it is open and that is closed. */
  ghost predicate Sound(e: End, p: End)
    reads e, p
  {
    && e.refs == e.active + (if p.peerRef then 1 else 0)
    && (e.peerRef <==> e.active > 0 && p.active == 0)
    && (e.on <==> e.active > 0) && e.rings && (e.active > 0 ==> e.shown) && !e.freed
  }

  /** An end e that is about to be opened for the first time, and holds the other one. */
  ghost predicate Newborn(e: End, p: End)
    reads e, p
  {
    && e.refs == 0 && e.peerRef && e.active == 0 && !e.on && !e.rings && !e.shown && !e.freed
    && p.refs == 1 && !p.peerRef && p.active == 0 && !p.on && !p.rings && !p.shown && !p.freed
  }

  datatype Role = Master | Slave

  class Pipe {
    const parent: Parent
    /** References to the parent that others hold. */
    ghost const others: nat
    /** The pipe is known to the parent, with these two ends. */
    var created: bool
    var master: End
    var slave: End

    ghost predicate Valid()
      reads this, parent, master, slave
    {
      && master != slave && parent.refs == others + (if created then 2 else 0)
      && (created ==> Sound(master, slave) && Sound(slave, master) && master.active + slave.active > 0)
    }

    function End(r: Role): End
      reads this
    {
      if r.Master? then master else slave
    }

    function Peer(r: Role): End
      reads this
    {
      if r.Master? then slave else master
    }

    constructor (p: Parent)
      ensures Valid() && parent == p && others == p.refs && !created && fresh(master) && fresh(slave)
    {
      parent, others, created := p, p.refs, false;
      master := new End();
      slave := new End();
    }

    /** netmap_adapter_put and netmap_pipe_dtor: the last reference to an end frees it, returns its reference to the
        parent, and drops its reference to the other end. */
    method Put(e: End, p: End)
      requires e != p && e.refs > 0 && parent.refs >= 2 && (e.refs == 1 && e.peerRef ==> p.refs == 1 && !p.peerRef)
      modifies e`refs, e`peerRef, e`freed, p`refs, p`freed, p`peerRef, parent, this`created
      ensures e.refs == old(e.refs) - 1
      ensures old(e.refs) > 1 ==> e.freed == old(e.freed) && e.peerRef == old(e.peerRef) && created == old(created)
                                  && unchanged(p) && unchanged(parent)
      ensures old(e.refs) == 1 && !old(e.peerRef) ==> e.freed && unchanged(p) && parent.refs == old(parent.refs) - 1
      ensures old(e.refs) == 1 && old(e.peerRef) ==>
                e.freed && p.freed && parent.refs == old(parent.refs) - 2 && (master in {e, p} ==> !created)
      ensures old(e.refs) == 1 && e == master ==> !created
      ensures created ==> old(created)
      decreases (if e.peerRef then 1 else 0) + (if p.peerRef then 1 else 0)
    {
      e.refs := e.refs - 1;
      if e.refs > 0 { return; }
      if e.peerRef {
        e.peerRef := false;
        Put(p, e);
      }
      if e == master {
        created := false;
      }
      parent.refs := parent.refs - 1;
      e.freed := true;
    }

    /** The rings of a first registration: those of both ends are created with the first end, and recovered when the
        other end is opened. */
    method CreateRings(e: End, p: End)
      requires e != p && (e.peerRef ==> !e.rings && !p.rings) && (!e.peerRef ==> e.rings)
      modifies e`rings, e`shown, p`rings, p`shown
      ensures e.rings && e.shown && (p.rings <==> old(e.peerRef) || old(p.rings))
      ensures !old(e.peerRef) ==> p.rings == old(p.rings) && p.shown == old(p.shown)
    {
      if e.peerRef {
        e.rings, e.shown := true, true;
        p.rings, p.shown := true, true;
      } else {
        e.shown := true;
      }
    }

    /** netmap_pipe_reg(on): an end that was kept by the other one is now kept by its open. */
    method Register(e: End, p: End)
      requires e != p && !e.on && (!e.peerRef ==> e.refs > 1) && parent.refs >= 2
      modifies e`on, e`refs, e`peerRef, e`freed, p`peerRef, p`refs, p`freed, parent, this`created
      ensures e.on && e.peerRef == old(e.peerRef) && e.freed == old(e.freed)
      ensures e.refs == old(e.refs) - (if old(e.peerRef) then 0 else 1)
      ensures p.peerRef == (old(e.peerRef) && old(p.peerRef)) && p.refs == old(p.refs) && p.freed == old(p.freed)
      ensures parent.refs == old(parent.refs) && created == old(created)
    {
      e.on := true;
      if !e.peerRef {
        p.peerRef := false;
        Put(e, p);
      }
    }

    /** netmap_get_pipe_na for a new pipe: both ends are created, and the requested one holds the other. */
    method Create(r: Role)
      requires !created && parent.refs == others + 1
      modifies this`created, this`master, this`slave, parent
      ensures created && fresh(master) && fresh(slave) && master != slave && parent.refs == others + 2
      ensures Newborn(End(r), Peer(r))
    {
      master := new End();
      slave := new End();
      parent.refs := parent.refs + 1;
      created := true;
      End(r).peerRef := true;
      Peer(r).refs := Peer(r).refs + 1;
    }

    /** netmap_do_regif: one more open of an end. */
    method Attach(e: End, p: End)
      requires e != p && parent.refs >= 2
      requires Newborn(e, p) || (Sound(e, p) && Sound(p, e) && e.active + p.active > 0)
      modifies this`created, parent, e, p
      ensures Sound(e, p) && Sound(p, e) && e.active == old(e.active) + 1 && p.active == old(p.active)
      ensures parent.refs == old(parent.refs) && created == old(created)
    {
      e.refs := e.refs + 1;
      if e.active == 0 {
        CreateRings(e, p);
      }
      e.active := e.active + 1;
      if !e.on {
        Register(e, p);
      }
    }

    /** netmap_get_pipe_na and netmap_do_regif: open an end, and create the pipe if needed. */
    method Open(r: Role)
      requires Valid()
      modifies this, parent, master, slave
      ensures Valid() && created
      ensures old(created) ==> master == old(master) && slave == old(slave)
      ensures !old(created) ==> fresh(master) && fresh(slave) && End(r).active == 1 && Peer(r).active == 0
      ensures old(created) ==> End(r).active == old(End(r).active) + 1 && Peer(r).active == old(Peer(r).active)
    {
      parent.refs := parent.refs + 1;
      if created {
        parent.refs := parent.refs - 1;
      } else {
        Create(r);
      }
      Attach(End(r), Peer(r));
    }

    /** netmap_pipe_reg(off): the other end, if open, now keeps this one, with its rings hidden. */
    method Unregister(e: End, p: End)
      requires e != p
      modifies e`on, e`refs, e`shown, p`peerRef
      ensures !e.on && e.refs == old(e.refs) + (if e.peerRef then 0 else 1)
      ensures e.shown == (old(e.shown) && e.peerRef) && p.peerRef == (old(p.peerRef) || !e.peerRef)
    {
      e.on := false;
      if !e.peerRef {
        e.refs := e.refs + 1;
        p.peerRef := true;
        e.shown := false;
      }
    }

    /** netmap_pipe_krings_delete: the last end to close deletes the rings of both. */
    method DeleteKrings(e: End, p: End)
      requires e != p && p.rings
      modifies p`rings, p`shown
      ensures p.rings == !e.peerRef && p.shown == (old(p.shown) && !e.peerRef)
    {
      if !e.peerRef { return; }
      p.shown := true;
      p.DeleteRings();
    }

    /** netmap_do_unregif and netmap_adapter_put: close an end.  The last close frees both ends and their rings, and
        returns both references to the parent. */
    method Close(r: Role)
      requires Valid() && created && End(r).active > 0
      modifies this`created, parent, master, slave
      ensures Valid()
      ensures created <==> old(master.active + slave.active) > 1
      ensures created ==> End(r).active == old(End(r).active) - 1 && Peer(r).active == old(Peer(r).active)
      ensures !created ==> master.freed && slave.freed && !master.rings && !slave.rings && parent.refs == others
    {
      var e, p := End(r), Peer(r);
      e.active := e.active - 1;
      if e.active == 0 {
        Unregister(e, p);
        e.DeleteRings();
        DeleteKrings(e, p);
      }
      Put(e, p);
    }

    /** How often each end is open. */
    ghost function Opened(): (nat, nat)
      reads this, master, slave
    {
      if created then (master.active, slave.active) else (0, 0)
    }

    /** One system call; a close without an open does nothing. */
    method Call(open: bool, r: Role)
      requires Valid()
      modifies this, parent, master, slave
      ensures Valid() && Opened() == After(old(Opened()), open, r)
      ensures (fresh(master) || master == old(master)) && (fresh(slave) || slave == old(slave))
    {
      if open {
        Open(r);
      } else if created && End(r).active > 0 {
        Close(r);
      }
    }

    /** Every sequence of opens and closes: the pipe exists exactly as long as one of its ends is open. */
    method Run(script: seq<(bool, Role)>)
      requires Valid()
      modifies this, parent, master, slave
      ensures Valid() && Opened() == AfterAll(old(Opened()), script)
      ensures (created <==> AfterAll(old(Opened()), script) != (0, 0)) && parent.refs == others + (if created then 2 else 0)
    {
      for i := 0 to |script|
        invariant Valid() && (fresh(master) || master == old(master)) && (fresh(slave) || slave == old(slave))
        invariant Opened() == AfterAll(old(Opened()), script[..i])
      {
        assert script[..i + 1][..i] == script[..i];
        Call(script[i].0, script[i].1);
      }
      assert script[..|script|] == script;
    }
  }

  /** The number of opens of each end after one more call. */
  ghost function After(c: (nat, nat), open: bool, r: Role): (nat, nat) {
    if r.Master? then (if open then (c.0 + 1, c.1) else if c.0 > 0 then (c.0 - 1, c.1) else c)
    else if open then (c.0, c.1 + 1) else if c.1 > 0 then (c.0, c.1 - 1) else c
  }

  ghost function AfterAll(c: (nat, nat), script: seq<(bool, Role)>): (nat, nat) {
    if script == [] then c
    else After(AfterAll(c, script[..|script| - 1]), script[|script| - 1].0, script[|script| - 1].1)
  }
}
