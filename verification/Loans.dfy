/**
 * Network buffers lent by a worker thread to its connections. A buffer is known
 * by its address; the thread keeps one spare buffer for each direction.
 */
module Loans {
  import opened Basics

  datatype Direction = Reading | Writing

  datatype Owner = Thread(d: Direction) | Connection(id: nat, d: Direction)

  /** The start of the buffer if there is one, how far it is parsed, its size, and the unparsed bytes. */
  datatype NetBuf = NetBuf(buf: Option<nat>, curr: nat, size: nat, bytes: nat) {
    predicate Clean() {
      curr == 0 && bytes == 0
    }

    predicate InBounds() {
      buf.Some? ==> curr + bytes <= size
    }
  }

  const EMPTY := NetBuf(None, 0, 0, 0)

  datatype BufferLoan = Existing | Loaned | Allocated

  datatype Op =
    | Accept(id: nat)
    | Loan(id: nat, first: bool, second: bool)
    | Return(id: nat)
    | Use(id: nat, d: Direction, curr: nat, bytes: nat)
    | Resize(id: nat, d: Direction, size: nat)
    | Pin(id: nat)
    | Close(id: nat)

  /** An allocated buffer: someone holds it. */
  ghost predicate Held(bufs: map<Owner, NetBuf>, holder: map<nat, Owner>, next: nat, a: nat) {
    a in holder && a < next && holder[a] in bufs && bufs[holder[a]].buf == Some(a)
  }

  /** A place for a buffer: what is in it is allocated and held here only, and a spare buffer is clean. */
  ghost predicate Fine(bufs: map<Owner, NetBuf>, holder: map<nat, Owner>, attached: set<nat>, o: Owner) {
    && o in bufs && bufs[o].InBounds()
    && (bufs[o].buf.Some? ==> bufs[o].buf.value in holder && holder[bufs[o].buf.value] == o)
    && (o.Thread? && bufs[o].buf.Some? ==> bufs[o].Clean())
    && (o.Connection? && o.id !in attached ==> bufs[o].buf.None?)
  }

  ghost predicate Owned(bufs: map<Owner, NetBuf>, holder: map<nat, Owner>, attached: set<nat>, next: nat) {
    && (forall a | a in holder :: Held(bufs, holder, next, a))
    && (forall o | o in bufs :: Fine(bufs, holder, attached, o))
  }

  /** In such a state every allocated buffer has exactly one owner. */
  lemma OneOwner(bufs: map<Owner, NetBuf>, holder: map<nat, Owner>, attached: set<nat>, next: nat, a: nat, o: Owner)
    requires Owned(bufs, holder, attached, next) && a in holder && o in bufs
    ensures bufs[o].buf == Some(a) <==> holder[a] == o
  {
    assert Held(bufs, holder, next, a) && Fine(bufs, holder, attached, o);
  }

  lemma MoveKeepsOwned(bufs: map<Owner, NetBuf>, holder: map<nat, Owner>, attached: set<nat>, next: nat,
                       from: Owner, to: Owner, left: NetBuf)
    requires Owned(bufs, holder, attached, next) && from in bufs && to in bufs && from != to
    requires bufs[from].buf.Some? && bufs[from].Clean() && bufs[to].buf.None? && left.buf.None?
    requires to.Connection? ==> to.id in attached
    ensures Owned(bufs[to := bufs[from]][from := left], holder[bufs[from].buf.value := to], attached, next)
  {
    var a := bufs[from].buf.value;
    assert Fine(bufs, holder, attached, from) && Held(bufs, holder, next, a);
    var bufs', holder' := bufs[to := bufs[from]][from := left], holder[a := to];
    forall b | b in holder' ensures Held(bufs', holder', next, b) {
      assert Held(bufs, holder, next, b);
    }
    forall o | o in bufs' ensures Fine(bufs', holder', attached, o) {
      assert Fine(bufs, holder, attached, o);
    }
  }

  lemma AllocateKeepsOwned(bufs: map<Owner, NetBuf>, holder: map<nat, Owner>, attached: set<nat>, next: nat,
                           o: Owner, size: nat)
    requires Owned(bufs, holder, attached, next) && o in bufs && bufs[o].buf.None? && o.Connection? && o.id in attached
    ensures Owned(bufs[o := NetBuf(Some(next), 0, size, 0)], holder[next := o], attached, next + 1)
  {
    var bufs', holder' := bufs[o := NetBuf(Some(next), 0, size, 0)], holder[next := o];
    forall b | b in holder' ensures Held(bufs', holder', next + 1, b) {
      assert b in holder ==> Held(bufs, holder, next, b);
    }
    forall p | p in bufs' ensures Fine(bufs', holder', attached, p) {
      assert Fine(bufs, holder, attached, p);
      assert bufs[p].buf.Some? ==> Held(bufs, holder, next, bufs[p].buf.value);
    }
  }

  lemma FreeKeepsOwned(bufs: map<Owner, NetBuf>, holder: map<nat, Owner>, attached: set<nat>, next: nat,
                       o: Owner, left: NetBuf)
    requires Owned(bufs, holder, attached, next) && o in bufs && bufs[o].buf.Some? && left.buf.None?
    ensures Owned(bufs[o := left], holder - {bufs[o].buf.value}, attached, next)
  {
    var bufs', holder' := bufs[o := left], holder - {bufs[o].buf.value};
    assert Fine(bufs, holder, attached, o);
    forall b | b in holder' ensures Held(bufs', holder', next, b) {
      assert Held(bufs, holder, next, b);
    }
    forall p | p in bufs' ensures Fine(bufs', holder', attached, p) {
      assert Fine(bufs, holder, attached, p);
    }
  }

  /** The connection works in its buffer. */
  lemma UseKeepsOwned(bufs: map<Owner, NetBuf>, holder: map<nat, Owner>, attached: set<nat>, next: nat, o: Owner,
                      b: NetBuf)
    requires Owned(bufs, holder, attached, next) && o in bufs && o.Connection? && b.InBounds() && b.buf == bufs[o].buf
    ensures Owned(bufs[o := b], holder, attached, next)
  {
    var bufs' := bufs[o := b];
    forall a | a in holder ensures Held(bufs', holder, next, a) {
      assert Held(bufs, holder, next, a);
    }
    forall p | p in bufs' ensures Fine(bufs', holder, attached, p) {
      assert Fine(bufs, holder, attached, p);
    }
  }

  lemma AcceptKeepsOwned(bufs: map<Owner, NetBuf>, holder: map<nat, Owner>, attached: set<nat>, next: nat, i: nat)
    requires Owned(bufs, holder, attached, next) && Connection(i, Reading) !in bufs && Connection(i, Writing) !in bufs
    ensures Owned(bufs[Connection(i, Reading) := EMPTY][Connection(i, Writing) := EMPTY], holder, attached + {i}, next)
  {
    var bufs' := bufs[Connection(i, Reading) := EMPTY][Connection(i, Writing) := EMPTY];
    forall a | a in holder ensures Held(bufs', holder, next, a) {
      assert Held(bufs, holder, next, a);
    }
    forall p | p in bufs' ensures Fine(bufs', holder, attached + {i}, p) {
      assert p in bufs ==> Fine(bufs, holder, attached, p);
    }
  }

  lemma DetachKeepsOwned(bufs: map<Owner, NetBuf>, holder: map<nat, Owner>, attached: set<nat>, next: nat, i: nat)
    requires Owned(bufs, holder, attached, next)
    requires forall d :: Connection(i, d) in bufs ==> bufs[Connection(i, d)].buf.None?
    ensures Owned(bufs, holder, attached - {i}, next)
  {
    forall p | p in bufs ensures Fine(bufs, holder, attached - {i}, p) {
      assert Fine(bufs, holder, attached, p);
      assert p.Connection? && p.id == i ==> p == Connection(i, p.d);
    }
  }

  /** When no connection is left, only the spare buffers of the thread are. */
  lemma NothingLeaks(bufs: map<Owner, NetBuf>, holder: map<nat, Owner>, next: nat, a: nat)
    requires Owned(bufs, holder, {}, next) && a in holder
    ensures holder[a].Thread? && bufs[holder[a]].Clean()
  {
    assert Held(bufs, holder, next, a) && Fine(bufs, holder, {}, holder[a]);
  }

  class Worker {
    var bufs: map<Owner, NetBuf>
    /** Connections that have a thread, and those whose buffers stay (TAP and DCP). */
    var attached: set<nat>
    var pinned: set<nat>
    /** Allocated and not yet freed, with the one who holds it; addresses below `next` have been used. */
    ghost var holder: map<nat, Owner>
    var next: nat

    ghost predicate Valid()
      reads this
    {
      && Owned(bufs, holder, attached, next)
      && Thread(Reading) in bufs && Thread(Writing) in bufs
      && forall i, d :: i in attached ==> Connection(i, d) in bufs
    }

    constructor ()
      ensures Valid() && holder == map[] && attached == {}
    {
      bufs := map[Thread(Reading) := EMPTY, Thread(Writing) := EMPTY];
      attached, pinned, holder, next := {}, {}, map[], 0;
    }

    /** conn_loan_single_buffer */
    method LoanSingle(i: nat, d: Direction, allocates: bool) returns (r: BufferLoan)
      requires Valid() && i in attached
      modifies this`bufs, this`holder, this`next
      ensures Valid() && bufs.Keys == old(bufs.Keys)
      ensures forall o | o in bufs && o != Connection(i, d) && o != Thread(d) :: bufs[o] == old(bufs[o])
      ensures r == Existing <==> old(bufs[Connection(i, d)].buf.Some? || (bufs[Thread(d)].buf.None? && !allocates))
      ensures r == Existing ==> bufs == old(bufs) && holder == old(holder)
      ensures r == Loaned ==> bufs[Connection(i, d)] == old(bufs[Thread(d)]) && bufs[Thread(d)].buf.None?
      ensures r == Allocated ==> bufs[Connection(i, d)].buf == Some(old(next)) && old(next) !in old(holder)
      ensures r == Allocated ==> bufs[Thread(d)] == old(bufs[Thread(d)])
      ensures r != Existing ==> bufs[Connection(i, d)].buf.Some? && bufs[Connection(i, d)].Clean()
      ensures r != Existing ==> bufs[Connection(i, d)].curr == 0 && bufs[Connection(i, d)].bytes == 0
      ensures r == Allocated ==> bufs[Connection(i, d)].size == 2048
      ensures r == Loaned ==> bufs[Thread(d)].size == 0
    {
      var o := Connection(i, d);
      var t := bufs[Thread(d)];
      if bufs[o].buf.Some? {
        return Existing;
      }
      if t.buf.Some? {
        assert Fine(bufs, holder, attached, Thread(d));
        MoveKeepsOwned(bufs, holder, attached, next, Thread(d), o, t.(buf := None, size := 0));
        bufs := bufs[o := t][Thread(d) := t.(buf := None, size := 0)];
        holder := holder[t.buf.value := o];
        return Loaned;
      }
      if !allocates {
        return Existing;
      }
      assert next in holder ==> Held(bufs, holder, next, next);
      AllocateKeepsOwned(bufs, holder, attached, next, o, DATA_BUFFER_SIZE);
      bufs := bufs[o := NetBuf(Some(next), 0, DATA_BUFFER_SIZE, 0)];
      holder := holder[next := o];
      next := next + 1;
      return Allocated;
    }

    /** conn_return_single_buffer */
    method ReturnSingle(i: nat, d: Direction)
      requires Valid() && i in attached
      modifies this`bufs, this`holder
      ensures Valid() && bufs.Keys == old(bufs.Keys)
      ensures forall o | o in bufs && o != Connection(i, d) && o != Thread(d) :: bufs[o] == old(bufs[o])
      ensures old(bufs[Thread(d)].buf.Some?) ==> bufs[Thread(d)] == old(bufs[Thread(d)])
      ensures old(!bufs[Connection(i, d)].Clean()) ==> bufs == old(bufs) && holder == old(holder)
      ensures old(bufs[Connection(i, d)].Clean()) ==> bufs[Connection(i, d)].buf.None?
      ensures old(bufs[Thread(d)].buf.None? && bufs[Connection(i, d)].Clean()) ==>
                bufs[Thread(d)].buf == old(bufs[Connection(i, d)].buf) && holder.Keys == old(holder.Keys)
      ensures old(bufs[Connection(i, d)].curr > 0 || bufs[Connection(i, d)].bytes > 0) ==> bufs == old(bufs)
      ensures old(bufs[Connection(i, d)].curr == 0 && bufs[Connection(i, d)].bytes == 0) ==>
                && bufs[Connection(i, d)].buf.None?
                && (old(bufs[Connection(i, d)].buf.Some?) ==> bufs[Connection(i, d)].size == 0)
                && (old(bufs[Connection(i, d)].buf.Some? && bufs[Thread(d)].buf.None?) ==>
                      bufs[Thread(d)] == old(bufs[Connection(i, d)]))
    {
      var o := Connection(i, d);
      var c, t := bufs[o], bufs[Thread(d)];
      if c.buf.Some? && c.Clean() {
        assert Fine(bufs, holder, attached, o);
        var left := c.(buf := None, size := 0);
        if t.buf.None? {
          MoveKeepsOwned(bufs, holder, attached, next, o, Thread(d), left);
          bufs := bufs[Thread(d) := c][o := left];
          holder := holder[c.buf.value := Thread(d)];
        } else {
          FreeKeepsOwned(bufs, holder, attached, next, o, left);
          bufs := bufs[o := left];
          holder := holder - {c.buf.value};
        }
      }
    }

    /** conn_loan_buffers */
    method LoanBuffers(i: nat, first: bool, second: bool)
      requires Valid() && i in attached
      modifies this`bufs, this`holder, this`next
      ensures Valid() && bufs.Keys == old(bufs.Keys)
      ensures forall o | o in bufs && o.Connection? && o.id != i :: bufs[o] == old(bufs[o])
      ensures forall d :: old(bufs[Connection(i, d)].buf.Some?) ==>
              bufs[Connection(i, d)] == old(bufs[Connection(i, d)])
      ensures first ==> bufs[Connection(i, Reading)].buf.Some?
      ensures second ==> bufs[Connection(i, Writing)].buf.Some?
      ensures forall d :: old(bufs[Connection(i, d)].buf.None?) && bufs[Connection(i, d)].buf.Some? ==>
                            bufs[Connection(i, d)].curr == 0 && bufs[Connection(i, d)].bytes == 0
    {
      var r := LoanSingle(i, Reading, first);
      r := LoanSingle(i, Writing, second);
    }

    /** conn_return_buffers; a connection without a thread must have none. */
    method ReturnBuffers(i: nat)
      requires Valid()
      modifies this`bufs, this`holder
      ensures Valid() && bufs.Keys == old(bufs.Keys)
      ensures forall o | o in bufs && o.Connection? && o.id != i :: bufs[o] == old(bufs[o])
      ensures forall d :: i in attached && old(bufs[Connection(i, d)].curr > 0 || bufs[Connection(i, d)].bytes > 0) ==>
                            bufs[Connection(i, d)] == old(bufs[Connection(i, d)])
      ensures forall d :: i in attached && i !in pinned
                          && old(bufs[Connection(i, d)].curr == 0 && bufs[Connection(i, d)].bytes == 0) ==>
                            bufs[Connection(i, d)].buf.None?
    {
      if i !in attached {
        NoBuffers(i);
        return;
      }
      if i in pinned {
        return;
      }
      ghost var before := bufs;
      ReturnSingle(i, Reading);
      ReturnSingle(i, Writing);
      forall d | before[Connection(i, d)].Clean() ensures bufs[Connection(i, d)].buf.None? {
        assert d == Reading || d == Writing;
      }
    }

    /** The null-buffer assertions of conn_return_buffers hold. */
    lemma NoBuffers(i: nat)
      requires Valid() && i !in attached
      ensures forall d :: Connection(i, d) in bufs ==> bufs[Connection(i, d)].buf.None?
    {
      forall d | Connection(i, d) in bufs ensures bufs[Connection(i, d)].buf.None? {
        assert Fine(bufs, holder, attached, Connection(i, d));
      }
    }

    /** The connection parses, receives or writes in its buffer. */
    method UseBuffer(i: nat, d: Direction, curr: nat, bytes: nat)
      requires Valid() && i in attached
      modifies this`bufs
      ensures Valid() && bufs.Keys == old(bufs.Keys)
      ensures forall o | o in bufs && o != Connection(i, d) :: bufs[o] == old(bufs[o])
      ensures var b := old(bufs[Connection(i, d)]).(curr := curr, bytes := bytes);
              bufs[Connection(i, d)] == if b.InBounds() then b else old(bufs[Connection(i, d)])
    {
      var o := Connection(i, d);
      assert Fine(bufs, holder, attached, o);
      var b := bufs[o].(curr := curr, bytes := bytes);
      if b.InBounds() {
        UseKeepsOwned(bufs, holder, attached, next, o, b);
        bufs := bufs[o := b];
      }
    }

    /** realloc of a connection's buffer: the old one is freed, the data moves along. */
    method ResizeBuffer(i: nat, d: Direction, size: nat)
      requires Valid() && i in attached
      modifies this`bufs, this`holder, this`next
      ensures Valid() && bufs.Keys == old(bufs.Keys)
      ensures forall o | o in bufs && o != Connection(i, d) :: bufs[o] == old(bufs[o])
      ensures var c := old(bufs[Connection(i, d)]);
              bufs[Connection(i, d)] == if c.buf.Some? && c.curr + c.bytes <= size
                                        then c.(buf := Some(old(next)), size := size) else c
    {
      var o := Connection(i, d);
      var c := bufs[o];
      if c.buf.Some? && c.curr + c.bytes <= size {
        FreeKeepsOwned(bufs, holder, attached, next, o, EMPTY);
        bufs, holder := bufs[o := EMPTY], holder - {c.buf.value};
        AllocateKeepsOwned(bufs, holder, attached, next, o, size);
        bufs, holder := bufs[o := NetBuf(Some(next), 0, size, 0)], holder[next := o];
        UseKeepsOwned(bufs, holder, attached, next + 1, o, NetBuf(Some(next), c.curr, size, c.bytes));
        bufs := bufs[o := NetBuf(Some(next), c.curr, size, c.bytes)];
        next := next + 1;
      }
    }

    method AcceptConnection(i: nat)
      requires Valid() && forall d :: Connection(i, d) !in bufs
      modifies this`bufs, this`attached
      ensures Valid() && attached == old(attached) + {i}
      ensures forall o | o in old(bufs) :: o in bufs && bufs[o] == old(bufs[o])
    {
      AcceptKeepsOwned(bufs, holder, attached, next, i);
      bufs := bufs[Connection(i, Reading) := EMPTY][Connection(i, Writing) := EMPTY];
      attached := attached + {i};
      forall j, d | j in attached ensures Connection(j, d) in bufs {
        assert d == Reading || d == Writing;
      }
    }

    /** conn_cleanup: data is dropped, both buffers go back, and the connection leaves the thread. */
    method CloseConnection(i: nat)
      requires Valid() && i in attached
      modifies this`bufs, this`holder, this`attached, this`pinned
      ensures Valid() && bufs.Keys == old(bufs.Keys) && attached == old(attached) - {i}
      ensures forall o | o in bufs && o.Connection? && o.id != i :: bufs[o] == old(bufs[o])
      ensures forall d :: bufs[Connection(i, d)].buf.None?
    {
      UseBuffer(i, Reading, 0, 0);
      UseBuffer(i, Writing, 0, 0);
      pinned := pinned - {i};
      ReturnBuffers(i);
      forall d ensures bufs[Connection(i, d)].buf.None? {
        assert d == Reading || d == Writing;
      }
      DetachKeepsOwned(bufs, holder, attached, next, i);
      attached := attached - {i};
    }

    /** One operation on one connection; operations that do not apply change nothing. */
    method Step(op: Op)
      requires Valid()
      modifies this
      ensures Valid() && old(bufs.Keys) <= bufs.Keys
      ensures forall o | o in old(bufs) && o.Connection? && o.id != op.id :: bufs[o] == old(bufs[o])
      ensures op.Loan? || op.Return? ==>
                forall d :: op.id in old(attached)
                            && old(bufs[Connection(op.id, d)].curr > 0 || bufs[Connection(op.id, d)].bytes > 0)
                            && old(bufs[Connection(op.id, d)].buf.Some?) ==>
                              bufs[Connection(op.id, d)] == old(bufs[Connection(op.id, d)])
      ensures op.Loan? && op.id in old(attached) ==>
                && (op.first ==> bufs[Connection(op.id, Reading)].buf.Some?)
                && (op.second ==> bufs[Connection(op.id, Writing)].buf.Some?)
                && forall d :: old(bufs[Connection(op.id, d)].buf.None?) && bufs[Connection(op.id, d)].buf.Some? ==>
                                 bufs[Connection(op.id, d)].curr == 0 && bufs[Connection(op.id, d)].bytes == 0
      ensures op.Close? && op.id in old(attached) ==>
                op.id !in attached && forall d :: bufs[Connection(op.id, d)].buf.None?
    {
      if op.Accept? {
        if Connection(op.id, Reading) !in bufs && Connection(op.id, Writing) !in bufs {
          forall d ensures Connection(op.id, d) !in bufs {
            assert d == Reading || d == Writing;
          }
          AcceptConnection(op.id);
        }
      } else if op.id in attached {
        match op
        case Loan(i, first, second) => LoanBuffers(i, first, second);
        case Return(i) => ReturnBuffers(i);
        case Use(i, d, curr, bytes) => UseBuffer(i, d, curr, bytes);
        case Resize(i, d, size) => ResizeBuffer(i, d, size);
        case Pin(i) => pinned := pinned + {i};
        case Close(i) => CloseConnection(i);
        case Accept(_) =>
      } else if op.Return? {
        ReturnBuffers(op.id);
      }
    }

    /** Any run of the operations of a worker's connections. */
    method Run(ops: seq<Op>)
      requires Valid()
      modifies this
      ensures Valid()
      ensures forall o | o in bufs && bufs[o].buf.Some? :: bufs[o].curr + bufs[o].bytes <= bufs[o].size
      ensures forall o | o in bufs && o.Thread? && bufs[o].buf.Some? :: bufs[o].curr == 0 && bufs[o].bytes == 0
    {
      for k := 0 to |ops|
        invariant Valid()
      {
        Step(ops[k]);
      }
      forall o | o in bufs ensures Fine(bufs, holder, attached, o) {}
    }
  }
}
