/**
 The registration half of the event loop: the map of handler nodes (m_eventInfos), the kernel's
 epoll interest set, and the four operations that keep the two in step.

 A node is what std::unordered_map allocates: it has an address, and the kernel stores that address
 in its interest entry. An empty std::function is an absent key of `handlers`.
 */
module Registration {
  import opened Common

  datatype Dir = In | Out

  type Fd = int
  type Addr = nat
  type Handler = nat

  /** One direction of one descriptor. */
  datatype Source = Source(fd: Fd, dir: Dir)

  const INVALID_FD: Fd := -1

  datatype Node = Node(fd: Fd, handlers: map<Dir, Handler>)

  /** One entry of the epoll set: the requested directions and ev.data.ptr. */
  datatype Interest = Interest(mask: set<Dir>, ptr: Addr)

  datatype Registry = Registry(index: map<Fd, Addr>, nodes: map<Addr, Node>, interest: map<Fd, Interest>)

  function Other(d: Dir): Dir {
    if d == In then Out else In
  }

  // ---------------------------------------------------------------------------------------------
  // epoll_ctl: ADD may be refused, MOD and DEL succeed exactly on a descriptor of the interest set.
  // ---------------------------------------------------------------------------------------------

  function EpollAdd(k: map<Fd, Interest>, fd: Fd, i: Interest, granted: bool): (map<Fd, Interest>, int) {
    if granted && fd !in k then (k[fd := i], 0) else (k, -1)
  }

  function EpollMod(k: map<Fd, Interest>, fd: Fd, i: Interest): (map<Fd, Interest>, int) {
    if fd in k then (k[fd := i], 0) else (k, -1)
  }

  function EpollDel(k: map<Fd, Interest>, fd: Fd): (map<Fd, Interest>, int) {
    if fd in k then (k - {fd}, 0) else (k, -1)
  }

  // ---------------------------------------------------------------------------------------------
  // The representation invariant
  // ---------------------------------------------------------------------------------------------

  /** Descriptors and nodes correspond one to one, and no node is without a handler. */
  ghost predicate NodesOk(r: Registry) {
    && (forall fd :: fd in r.index ==> r.index[fd] in r.nodes && r.nodes[r.index[fd]].fd == fd)
    && (forall a :: a in r.nodes ==> r.nodes[a].fd in r.index && r.index[r.nodes[a].fd] == a)
    && (forall a :: a in r.nodes ==> In in r.nodes[a].handlers || Out in r.nodes[a].handlers)
  }

  /** What the kernel watches is covered by the handler map, direction by direction. */
  ghost predicate InterestOk(r: Registry)
    requires NodesOk(r)
  {
    forall fd :: fd in r.interest ==>
      && fd in r.index
      && r.interest[fd].ptr == r.index[fd]
      && r.interest[fd].mask == r.nodes[r.index[fd]].handlers.Keys
  }

  ghost predicate Valid(r: Registry) {
    NodesOk(r) && InterestOk(r)
  }

  predicate Has(r: Registry, fd: Fd, d: Dir) {
    fd in r.index && r.index[fd] in r.nodes && d in r.nodes[r.index[fd]].handlers
  }

  /** The handler of one direction: the in-map is Lookup(r, _, In), the out-map Lookup(r, _, Out). */
  function Lookup(r: Registry, fd: Fd, d: Dir): Option<Handler> {
    if Has(r, fd, d) then Some(r.nodes[r.index[fd]].handlers[d]) else None
  }

  // ---------------------------------------------------------------------------------------------
  // The operations
  // ---------------------------------------------------------------------------------------------

  /**
   The locked part of addEvent and addOutEvent. `spare` is the address the allocator hands out for a
   new node and `granted` tells whether the kernel accepts an ADD. A refused ADD leaves the node.
   */
  function Add(r: Registry, fd: Fd, d: Dir, h: Handler, spare: Addr, granted: bool): (Registry, int)
    requires fd in r.index ==> r.index[fd] in r.nodes
  {
    if fd !in r.index then
      var (k, ret) := EpollAdd(r.interest, fd, Interest({d}, spare), granted);
      (Registry(r.index[fd := spare], r.nodes[spare := Node(fd, map[d := h])], k), ret)
    else
      var a := r.index[fd];
      var handlers := r.nodes[a].handlers[d := h];
      var mask := if Other(d) in handlers then {d, Other(d)} else {d};
      var (k, ret) := EpollMod(r.interest, fd, Interest(mask, a));
      (Registry(r.index, r.nodes[a := Node(fd, handlers)], k), ret)
  }

  predicate Watched(r: Registry, src: Source) {
    src.fd in r.interest && src.dir in r.interest[src.fd].mask
  }

  /** `removed` are the bits to turn off in batch entries that carry `ptr`. */
  datatype Erasure = Erasure(reg: Registry, ret: int, ptr: Addr, removed: set<Dir>)

  /** eraseEvent and eraseOutEvent up to the masking of the batch. */
  function Erase(r: Registry, fd: Fd, d: Dir): Erasure
    requires Has(r, fd, d)
  {
    var a := r.index[fd];
    var handlers := r.nodes[a].handlers;
    if Other(d) in handlers then
      var (k, ret) := EpollMod(r.interest, fd, Interest({Other(d)}, a));
      Erasure(Registry(r.index, r.nodes[a := Node(fd, handlers - {d})], k), ret, a, {d})
    else
      var (k, ret) := EpollDel(r.interest, fd);
      Erasure(Registry(r.index - {fd}, r.nodes - {a}, k), ret, a, {In, Out})
  }

  // ---------------------------------------------------------------------------------------------
  // The pair of maps
  // ---------------------------------------------------------------------------------------------

  lemma DirsOf(m: map<Dir, Handler>, d: Dir)
    requires d in m
    ensures m.Keys == if Other(d) in m then {d, Other(d)} else {d}
  {
    forall e | e in m ensures e == d || e == Other(d) {}
  }

  lemma InsertKeepsValid(r: Registry, fd: Fd, d: Dir, h: Handler, spare: Addr, granted: bool)
    requires Valid(r) && spare !in r.nodes && fd !in r.index
    ensures Valid(Add(r, fd, d, h, spare, granted).0)
  {
    var r' := Add(r, fd, d, h, spare, granted).0;
    assert NodesOk(r');
    forall g | g in r'.interest
      ensures g in r'.index && r'.interest[g].ptr == r'.index[g]
      ensures r'.interest[g].mask == r'.nodes[r'.index[g]].handlers.Keys
    {
      if g == fd {
        assert r'.nodes[spare].handlers.Keys == {d};
      } else {
        assert r'.nodes[r'.index[g]] == r.nodes[r.index[g]];
      }
    }
  }

  lemma ReplaceKeepsValid(r: Registry, fd: Fd, d: Dir, h: Handler, spare: Addr, granted: bool)
    requires Valid(r) && fd in r.index
    ensures Valid(Add(r, fd, d, h, spare, granted).0)
  {
    var r' := Add(r, fd, d, h, spare, granted).0;
    DirsOf(r'.nodes[r.index[fd]].handlers, d);
    assert NodesOk(r');
    forall g | g in r'.interest
      ensures g in r'.index && r'.interest[g].ptr == r'.index[g]
      ensures r'.interest[g].mask == r'.nodes[r'.index[g]].handlers.Keys
    {
      if g != fd {
        assert r'.nodes[r'.index[g]] == r.nodes[r.index[g]];
      }
    }
  }

  lemma AddKeepsValid(r: Registry, fd: Fd, d: Dir, h: Handler, spare: Addr, granted: bool)
    requires Valid(r) && spare !in r.nodes
    ensures var (r', ret) := Add(r, fd, d, h, spare, granted);
      && Valid(r')
      && (ret == 0 <==> fd in r'.interest)
      && (ret == 0 || ret == -1)
  {
    if fd in r.index {
      ReplaceKeepsValid(r, fd, d, h, spare, granted);
    } else {
      InsertKeepsValid(r, fd, d, h, spare, granted);
    }
  }

  /** Adding updates the map of its own direction at `fd` alone, whether or not epoll_ctl succeeds. */
  lemma AddUpdatesOneMap(r: Registry, fd: Fd, d: Dir, h: Handler, spare: Addr, granted: bool)
    requires Valid(r) && spare !in r.nodes
    ensures var r' := Add(r, fd, d, h, spare, granted).0;
      forall g, e :: Lookup(r', g, e) == if g == fd && e == d then Some(h) else Lookup(r, g, e)
  {
    var r' := Add(r, fd, d, h, spare, granted).0;
    forall g, e ensures Lookup(r', g, e) == if g == fd && e == d then Some(h) else Lookup(r, g, e) {}
  }

  lemma EraseKeepsValid(r: Registry, fd: Fd, d: Dir)
    requires Valid(r) && Has(r, fd, d)
    ensures var e := Erase(r, fd, d);
      && Valid(e.reg)
      && (e.ret == -1 <==> fd !in r.interest)
      && (e.ret == 0 || e.ret == -1)
      && (fd in e.reg.interest <==> fd in r.interest && Has(r, fd, Other(d)))
  {
    var e := Erase(r, fd, d);
    DirsOf(r.nodes[r.index[fd]].handlers, d);
    assert NodesOk(e.reg);
    forall g | g in e.reg.interest
      ensures g in e.reg.index && e.reg.interest[g].ptr == e.reg.index[g]
      ensures e.reg.interest[g].mask == e.reg.nodes[e.reg.index[g]].handlers.Keys
    {
      if g != fd {
        assert e.reg.nodes[e.reg.index[g]] == r.nodes[r.index[g]];
      }
    }
  }

  /** Erasing removes `fd` from the map of its own direction and leaves the rest of both maps alone. */
  lemma EraseUpdatesOneMap(r: Registry, fd: Fd, d: Dir)
    requires Valid(r) && Has(r, fd, d)
    ensures var r' := Erase(r, fd, d).reg;
      forall g, e :: Lookup(r', g, e) == if g == fd && e == d then None else Lookup(r, g, e)
  {
    var r' := Erase(r, fd, d).reg;
    DirsOf(r.nodes[r.index[fd]].handlers, d);
    forall g, e ensures Lookup(r', g, e) == if g == fd && e == d then None else Lookup(r, g, e) {
      assert g == fd || g !in r.index || r.index[g] != r.index[fd];
    }
  }

  /** What an add leaves alone: addresses and owners of the nodes, and what the kernel watches beyond `fd`. */
  lemma AddFrame(r: Registry, fd: Fd, d: Dir, h: Handler, spare: Addr, granted: bool)
    requires Valid(r) && spare !in r.nodes
    ensures var (r', ret) := Add(r, fd, d, h, spare, granted);
      && (forall a :: a in r.nodes ==>
        a in r'.nodes && r'.nodes[a].fd == r.nodes[a].fd && r.nodes[a].handlers.Keys <= r'.nodes[a].handlers.Keys)
      && (forall g :: g in r.index ==> g in r'.index && r'.index[g] == r.index[g])
      && (forall src :: Watched(r', src) <==> Watched(r, src) || (ret == 0 && src == Source(fd, d)))
  {
    if fd in r.index {
      DirsOf(r.nodes[r.index[fd]].handlers[d := h], d);
    }
  }

  /** What an erase leaves alone. */
  lemma EraseFrame(r: Registry, fd: Fd, d: Dir)
    requires Valid(r) && Has(r, fd, d)
    ensures var e := Erase(r, fd, d);
      && e.ptr == r.index[fd] && d in e.removed
      && (forall a :: a in r.nodes && a != e.ptr ==> a in e.reg.nodes && e.reg.nodes[a] == r.nodes[a])
      && (e.ptr in e.reg.nodes ==> e.removed == {d} && e.reg.nodes[e.ptr].fd == fd
                                   && e.reg.nodes[e.ptr].handlers.Keys == r.nodes[e.ptr].handlers.Keys - {d})
      && (e.ptr !in e.reg.nodes ==> e.removed == {In, Out})
      && (forall g :: g in e.reg.index ==> g in r.index && e.reg.index[g] == r.index[g])
      && (forall g :: g in r.index && g != fd ==> g in e.reg.index && e.reg.index[g] != e.ptr)
      && (forall src :: Watched(e.reg, src) <==> Watched(r, src) && src != Source(fd, d))
      && (forall src :: Watched(e.reg, src) ==> src.fd in e.reg.index)
  {
    DirsOf(r.nodes[r.index[fd]].handlers, d);
    EraseKeepsValid(r, fd, d);
  }

  /**
   An add succeeds exactly when the kernel already watches the descriptor, or it is new and the ADD is
   granted. So after a refused ADD it fails whatever the kernel would grant.
   */
  lemma AddSucceedsExactly(r: Registry, fd: Fd, d: Dir, h: Handler, spare: Addr, granted: bool)
    requires Valid(r) && spare !in r.nodes
    ensures Add(r, fd, d, h, spare, granted).1 == 0 <==> fd in r.interest || (fd !in r.index && granted)
  {}

  /** The handler map knows the descriptor and the kernel does not. */
  predicate Refused(r: Registry, fd: Fd) {
    fd in r.index && fd !in r.interest
  }

  /** A refused ADD leaves the descriptor in the handler map but not in the kernel, and so does every add after it. */
  lemma RefusedAddIsSticky(r: Registry, fd: Fd, d: Dir, h: Handler, spare: Addr, granted: bool)
    requires Valid(r) && spare !in r.nodes
    ensures var (r', ret) := Add(r, fd, d, h, spare, granted);
      var refused := Refused(r', fd);
      && (refused <==> fd !in r.interest && (fd in r.index || !granted))
      && (ret == -1 <==> refused)
  {
    AddKeepsValid(r, fd, d, h, spare, granted);
    AddSucceedsExactly(r, fd, d, h, spare, granted);
  }

  lemma AddKeepsRefused(r: Registry, g: Fd, d: Dir, h: Handler, spare: Addr, granted: bool, fd: Fd)
    requires Valid(r) && spare !in r.nodes && Refused(r, fd)
    ensures var (r', ret) := Add(r, g, d, h, spare, granted); Refused(r', fd) && (g == fd ==> ret == -1)
  {}

  lemma EraseKeepsRefused(r: Registry, g: Fd, d: Dir, fd: Fd)
    requires Valid(r) && Has(r, g, d) && Refused(r, fd) && g != fd
    ensures Refused(Erase(r, g, d).reg, fd)
  {}

  /** Only the two erasures together make the descriptor addable again. */
  lemma ErasureCuresRefusedAdd(r: Registry, fd: Fd, d: Dir, h: Handler, spare: Addr)
    requires Valid(r) && spare !in r.nodes
    requires Has(r, fd, d) && fd !in r.interest
    ensures var r' := Erase(r, fd, d).reg;
      var again := Add(r', fd, d, h, spare, true);
      (again.1 == 0 <==> !Has(r, fd, Other(d)))
  {
    EraseKeepsValid(r, fd, d);
    EraseUpdatesOneMap(r, fd, d);
  }
}
