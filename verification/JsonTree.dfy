/**
 * The model tree: every node keeps a copy of the data of all its descendants,
 * and changes are pushed up the parent chain to the root document.
 */
module JsonTree {
  import opened Bytes
  import opened Lists
  import opened Separated

  datatype Json = Str(s: string) | Num(x: real) | Bool(b: bool) | Arr(items: seq<Json>) | Obj(fields: map<string, Json>)

  type Fields = map<string, Json>

  // ---------- the nodes as values ----------

  /** The state of one node. Only a root uses its document. */
  datatype Rec = Rec(name: string, data: Fields, parent: JSonNode?, kids: seq<JSonNode>, doc: Fields, depth: nat)

  type Heap = map<JSonNode, Rec>

  ghost predicate WellPlaced(h: Heap, n: JSonNode)
    requires n in h
  {
    var r := h[n];
    && (r.parent != null ==> r.parent in h && r.depth == h[r.parent].depth + 1)
    && (forall c :: c in r.kids ==> c in h && h[c].parent == n)
    && (forall c, d :: c in r.kids && d in r.kids && h[c].name == h[d].name ==> c == d)
    && NoDup<JSonNode>(r.kids)
  }

  /** Parents and children agree, and siblings have different names. */
  ghost predicate Tree(h: Heap) {
    forall n :: n in h ==> WellPlaced(h, n)
  }

  /** Parents are there, one level up. */
  ghost predicate Grounded(h: Heap) {
    forall n :: n in h && h[n].parent != null ==> h[n].parent in h && h[n].depth == h[h[n].parent].depth + 1
  }

  lemma TreeIsGrounded(h: Heap)
    requires Tree(h)
    ensures Grounded(h)
  {
    assert forall n :: n in h ==> WellPlaced(h, n);
  }

  /** Nodes down to depth d are listed by their parents. */
  ghost predicate AttachedTo(h: Heap, d: nat)
    requires Tree(h)
  {
    forall n :: n in h && h[n].parent != null && h[n].depth <= d ==> n in h[h[n].parent].kids
  }

  ghost predicate Attached(h: Heap)
    requires Tree(h)
  {
    forall n :: n in h && h[n].parent != null ==> n in h[h[n].parent].kids
  }

  predicate Copied(h: Heap, n: JSonNode, c: JSonNode)
    requires n in h && c in h
  {
    h[c].name in h[n].data && h[n].data[h[c].name] == Obj(h[c].data)
  }

  /** Every child's data is stored under its name; a root's data is its document. Both may fail for x,
      whose copy is still to be brought up to date. */
  ghost predicate Mirrors(h: Heap, n: JSonNode, x: JSonNode?)
    requires n in h && WellPlaced(h, n)
  {
    && (forall c :: c in h[n].kids && c != x ==> Copied(h, n, c))
    && (h[n].parent == null && n != x ==> h[n].doc == h[n].data)
  }

  ghost predicate MirrorBut(h: Heap, x: JSonNode?)
    requires Tree(h)
  {
    forall n :: n in h ==> Mirrors(h, n, x)
  }

  /** The steady state. */
  ghost predicate Mirror(h: Heap) { Tree(h) && Attached(h) && MirrorBut(h, null) }

  ghost predicate IsKidName(h: Heap, n: JSonNode, k: string)
    requires n in h && WellPlaced(h, n)
  {
    exists c :: c in h[n].kids && h[c].name == k
  }

  /** A node's own values: what it holds besides copies of its children. */
  ghost function Own(h: Heap, n: JSonNode): Fields
    requires n in h && WellPlaced(h, n)
  {
    map k | k in h[n].data && !IsKidName(h, n, k) :: h[n].data[k]
  }

  // ---------- pushing a change up ----------

  function Store(h: Heap, x: JSonNode): Heap
    requires x in h && h[x].parent != null && h[x].parent in h
  {
    var p := h[x].parent;
    h[p := h[p].(data := h[p].data[h[x].name := Obj(h[x].data)])]
  }

  function SetDoc(h: Heap, x: JSonNode): Heap
    requires x in h
  {
    h[x := h[x].(doc := h[x].data)]
  }

  /** updateParentJSon, ending with the document of the root. */
  ghost function Push(h: Heap, x: JSonNode): Heap
    requires x in h && Grounded(h)
    decreases h[x].depth
  {
    if h[x].parent == null then SetDoc(h, x)
    else
      StoreKeepsGround(h, x);
      Push(Store(h, x), h[x].parent)
  }

  lemma StoreKeepsGround(h: Heap, x: JSonNode)
    requires x in h && h[x].parent != null && Grounded(h)
    ensures SameShape(h, Store(h, x)) && Grounded(Store(h, x))
  {
  }

  ghost predicate SameShape(h: Heap, h': Heap) {
    && h.Keys == h'.Keys
    && forall n :: n in h ==>
         h'[n].name == h[n].name && h'[n].parent == h[n].parent && h'[n].kids == h[n].kids && h'[n].depth == h[n].depth
  }

  lemma ShapeKept(h: Heap, h': Heap)
    requires Tree(h) && SameShape(h, h')
    ensures Tree(h')
    ensures forall d :: AttachedTo(h, d) ==> AttachedTo(h', d)
    ensures Attached(h) ==> Attached(h')
  {
    forall n | n in h'
      ensures WellPlaced(h', n)
    {
      assert WellPlaced(h, n);
    }
  }

  lemma StoreKeepsShape(h: Heap, x: JSonNode)
    requires x in h && h[x].parent != null && Tree(h)
    ensures WellPlaced(h, x) && SameShape(h, Store(h, x)) && Tree(Store(h, x))
  {
    assert WellPlaced(h, x);
    ShapeKept(h, Store(h, x));
  }

  /** The same, for one node: each child copied before is still copied, and x now is. */
  lemma StoreMirrorsAt(h: Heap, x: JSonNode, n: JSonNode)
    requires x in h && n in h && h[x].parent != null && WellPlaced(h, x) && WellPlaced(h, n)
    requires WellPlaced(Store(h, x), n) && Mirrors(h, n, x) && x in h[h[x].parent].kids
    ensures Mirrors(Store(h, x), n, h[x].parent)
  {
    var h', p := Store(h, x), h[x].parent;
    forall c | c in h'[n].kids && c != p
      ensures Copied(h', n, c)
    {
      assert h[c].parent == n && h'[c].data == h[c].data;
      assert c != x ==> Copied(h, n, c);
    }
  }

  /** Storing x's data mends the copy of x and leaves that of its parent to be mended. */
  lemma StoreMirrors(h: Heap, x: JSonNode)
    requires x in h && h[x].parent != null && Tree(h) && AttachedTo(h, h[x].depth) && MirrorBut(h, x)
    ensures h[x].parent in h && Tree(Store(h, x)) && MirrorBut(Store(h, x), h[x].parent)
  {
    hide WellPlaced, Mirrors, SameShape;
    StoreKeepsShape(h, x);
    forall n | n in Store(h, x)
      ensures Mirrors(Store(h, x), n, h[x].parent)
    {
      StoreMirrorsAt(h, x, n);
    }
  }

  /** Equal names and equal values outside the copies. */
  lemma OwnAgrees(h: Heap, h': Heap, n: JSonNode)
    requires n in h && n in h' && WellPlaced(h, n) && WellPlaced(h', n)
    requires h'[n].kids == h[n].kids && forall c :: c in h[n].kids ==> h'[c].name == h[c].name
    requires forall k :: !IsKidName(h, n, k) ==>
               (k in h'[n].data <==> k in h[n].data) && (k in h[n].data ==> h'[n].data[k] == h[n].data[k])
    ensures Own(h', n) == Own(h, n)
  {
    hide WellPlaced;
    assert forall k :: IsKidName(h', n, k) <==> IsKidName(h, n, k);
  }

  lemma StoreKeepsOwn(h: Heap, x: JSonNode, n: JSonNode)
    requires x in h && n in h && h[x].parent != null && Tree(h) && AttachedTo(h, h[x].depth)
    ensures h[x].parent in h && Tree(Store(h, x)) && WellPlaced(h, n) && WellPlaced(Store(h, x), n)
    ensures Own(Store(h, x), n) == Own(h, n)
  {
    hide Own;
    StoreKeepsShape(h, x);
    assert WellPlaced(h, n) && WellPlaced(Store(h, x), n);
    assert n == h[x].parent ==> IsKidName(h, n, h[x].name);
    OwnAgrees(h, Store(h, x), n);
  }

  lemma PushUnfolds(h: Heap, x: JSonNode)
    requires x in h && h[x].parent != null && Grounded(h)
    ensures SameShape(h, Store(h, x)) && Grounded(Store(h, x))
    ensures h[x].parent in h && h[h[x].parent].depth < h[x].depth
    ensures Push(h, x) == Push(Store(h, x), h[x].parent)
  {
    hide SameShape;
    StoreKeepsGround(h, x);
  }

  lemma PushAtRoot(h: Heap, x: JSonNode)
    requires x in h && h[x].parent == null && Grounded(h)
    ensures Push(h, x) == SetDoc(h, x) && SameShape(h, SetDoc(h, x))
  {
  }

  /** From depth d down, all data is as before. */
  ghost predicate SameBelow(h: Heap, h': Heap, d: nat) {
    forall n :: n in h && n in h' && h[n].depth >= d ==> h'[n].data == h[n].data
  }

  lemma ShapeChains(a: Heap, b: Heap, c: Heap, d: nat, d': nat)
    requires SameShape(a, b) && SameShape(b, c) && d <= d'
    requires SameBelow(a, b, d') && SameBelow(b, c, d)
    ensures SameShape(a, c) && SameBelow(a, c, d')
  {
  }

  lemma StoreIsAbove(h: Heap, x: JSonNode)
    requires x in h && h[x].parent != null && h[x].parent in h && h[h[x].parent].depth < h[x].depth
    ensures SameBelow(h, Store(h, x), h[x].depth)
  {
  }

  /** Pushing a change up changes data above x only. */
  lemma {:induction false} PushKeepsShape(h: Heap, x: JSonNode)
    requires x in h && Grounded(h)
    ensures SameShape(h, Push(h, x)) && SameBelow(h, Push(h, x), h[x].depth)
    decreases h[x].depth
  {
    hide Push, Grounded, Store, SameShape;
    if h[x].parent == null {
      PushAtRoot(h, x);
    } else {
      hide SameBelow;
      PushUnfolds(h, x);
      var p, h' := h[x].parent, Store(h, x);
      StoreIsAbove(h, x);
      ShapeAt(h, h', p);
      PushKeepsShape(h', p);
      ShapeChains(h, h', Push(h', p), h[p].depth, h[x].depth);
    }
  }

  /** Pushing a change up re-establishes the mirror, all the way to the root document. */
  lemma {:induction false} PushMirrors(h: Heap, x: JSonNode)
    requires x in h && Tree(h) && AttachedTo(h, h[x].depth) && MirrorBut(h, x)
    ensures Tree(Push(h, x)) && MirrorBut(Push(h, x), null)
    decreases h[x].depth
  {
    hide Push, Tree, AttachedTo, MirrorBut, Store, SameShape, WellPlaced, Grounded;
    TreeIsGrounded(h);
    if h[x].parent == null {
      PushAtRoot(h, x);
      RootMirrors(h, x);
    } else {
      PushUnfolds(h, x);
      var p, h' := h[x].parent, Store(h, x);
      StoreMirrors(h, x);
      ShapeAt(h, h', p);
      AttachedAbove(h, h', h[p].depth, h[x].depth);
      PushMirrors(h', p);
    }
  }

  lemma ShapeAt(h: Heap, h': Heap, n: JSonNode)
    requires SameShape(h, h') && n in h
    ensures n in h' && h'[n].name == h[n].name && h'[n].parent == h[n].parent
    ensures h'[n].kids == h[n].kids && h'[n].depth == h[n].depth
  {
  }

  lemma AttachedAbove(h: Heap, h': Heap, d: nat, d': nat)
    requires Tree(h) && SameShape(h, h') && d <= d' && AttachedTo(h, d')
    ensures Tree(h') && AttachedTo(h', d)
  {
    ShapeKept(h, h');
  }

  lemma RootMirrorsAt(h: Heap, x: JSonNode, n: JSonNode)
    requires x in h && n in h && h[x].parent == null && WellPlaced(h, n) && WellPlaced(SetDoc(h, x), n)
    requires Mirrors(h, n, x)
    ensures Mirrors(SetDoc(h, x), n, null)
  {
    var h' := SetDoc(h, x);
    forall c | c in h'[n].kids
      ensures Copied(h', n, c)
    {
      assert h[c].parent == n && Copied(h, n, c);
    }
  }

  lemma RootMirrors(h: Heap, x: JSonNode)
    requires x in h && h[x].parent == null && Tree(h) && MirrorBut(h, x)
    ensures Tree(SetDoc(h, x)) && MirrorBut(SetDoc(h, x), null)
  {
    hide WellPlaced, Mirrors;
    ShapeKept(h, SetDoc(h, x));
    forall n | n in SetDoc(h, x)
      ensures Mirrors(SetDoc(h, x), n, null)
    {
      RootMirrorsAt(h, x, n);
    }
  }

  /** Nobody's own values change on the way. */
  lemma {:induction false} PushKeepsOwn(h: Heap, x: JSonNode, n: JSonNode)
    requires x in h && n in h && Tree(h) && AttachedTo(h, h[x].depth)
    ensures n in Push(h, x) && WellPlaced(h, n) && WellPlaced(Push(h, x), n)
    ensures Own(Push(h, x), n) == Own(h, n)
    decreases h[x].depth
  {
    hide Push, Tree, AttachedTo, Store, SameShape, WellPlaced, Own, Grounded;
    TreeIsGrounded(h);
    if h[x].parent == null {
      PushAtRoot(h, x);
      SameOwn(h, SetDoc(h, x), n);
    } else {
      PushUnfolds(h, x);
      var p, h' := h[x].parent, Store(h, x);
      StoreKeepsOwn(h, x, n);
      ShapeAt(h, h', p);
      ShapeAt(h, h', n);
      AttachedAbove(h, h', h[p].depth, h[x].depth);
      PushKeepsOwn(h', p, n);
    }
  }

  lemma SameOwn(h: Heap, h': Heap, n: JSonNode)
    requires Tree(h) && SameShape(h, h') && n in h && n in h' && h'[n].data == h[n].data
    ensures WellPlaced(h, n) && WellPlaced(h', n) && Own(h', n) == Own(h, n)
  {
    hide Own;
    ShapeKept(h, h');
    assert WellPlaced(h, n) && WellPlaced(h', n);
    OwnAgrees(h, h', n);
  }

  // ---------- values of a node ----------

  function WithData(h: Heap, x: JSonNode, data: Fields): Heap
    requires x in h
  {
    h[x := h[x].(data := data)]
  }

  lemma WithDataKeepsShape(h: Heap, x: JSonNode, data: Fields)
    requires x in h && Tree(h)
    ensures SameShape(h, WithData(h, x, data)) && Tree(WithData(h, x, data))
    ensures Attached(h) ==> Attached(WithData(h, x, data))
  {
    hide Tree, Attached;
    ShapeKept(h, WithData(h, x, data));
  }

  /** setString, setNumber, setBool: a value of the node itself. */
  ghost function Put(h: Heap, x: JSonNode, k: string, v: Json): Heap
    requires x in h && Tree(h)
  {
    WithDataKeepsShape(h, x, h[x].data[k := v]);
    Push(WithData(h, x, h[x].data[k := v]), x)
  }

  lemma WithDataMirrorsAt(h: Heap, x: JSonNode, data: Fields, n: JSonNode)
    requires x in h && n in h && WellPlaced(h, x) && WellPlaced(h, n) && WellPlaced(WithData(h, x, data), n)
    requires forall c :: c in h[x].kids ==> h[c].name in data && data[h[c].name] == Obj(h[c].data)
    requires Mirrors(h, n, null)
    ensures Mirrors(WithData(h, x, data), n, x)
  {
    var h1 := WithData(h, x, data);
    forall c | c in h1[n].kids && c != x
      ensures Copied(h1, n, c)
    {
      assert Copied(h, n, c);
    }
  }

  /** If only x's data differs and it still has its copies, only the copy of x is out of date. */
  lemma WithDataMirrors(h: Heap, x: JSonNode, data: Fields)
    requires Mirror(h) && x in h && WellPlaced(h, x)
    requires forall c :: c in h[x].kids ==> h[c].name in data && data[h[c].name] == Obj(h[c].data)
    ensures var h1 := WithData(h, x, data); Tree(h1) && Attached(h1) && MirrorBut(h1, x)
  {
    var h1 := WithData(h, x, data);
    WithDataKeepsShape(h, x, data);
    hide WellPlaced, Mirrors, SameShape, Attached;
    forall n | n in h1
      ensures Mirrors(h1, n, x)
    {
      WithDataMirrorsAt(h, x, data, n);
    }
  }

  /** An edit around x, pushed up. */
  lemma PushedIsMirror(h: Heap, x: JSonNode)
    requires x in h && Tree(h) && Attached(h) && MirrorBut(h, x)
    ensures Mirror(Push(h, x))
  {
    hide Push, MirrorBut, WellPlaced;
    TreeIsGrounded(h);
    PushMirrors(h, x);
    PushKeepsShape(h, x);
    ShapeKept(h, Push(h, x));
  }

  /** Setting a value keeps the mirror, up to the root document, exactly when its key is not the name
      of a child. */
  lemma PutMirrorsExactly(h: Heap, x: JSonNode, k: string, v: Json)
    requires Mirror(h) && x in h && !v.Obj?
    ensures WellPlaced(h, x) && (Mirror(Put(h, x, k, v)) <==> !IsKidName(h, x, k))
  {
    assert WellPlaced(h, x) && Mirrors(h, x, null);
    var data := h[x].data[k := v];
    var h1 := WithData(h, x, data);
    WithDataKeepsShape(h, x, data);
    hide Push, Tree, Attached;
    TreeIsGrounded(h1);
    PushKeepsShape(h1, x);
    if IsKidName(h, x, k) {
      var c :| c in h[x].kids && h[c].name == k;
      NotCopied(Put(h, x, k, v), x, c);
    } else {
      forall c | c in h[x].kids
        ensures h[c].name in data && data[h[c].name] == Obj(h[c].data)
      {
        assert Copied(h, x, c);
      }
      WithDataMirrors(h, x, data);
      PushedIsMirror(h1, x);
    }
  }

  lemma NotCopied(h: Heap, n: JSonNode, c: JSonNode)
    requires n in h && c in h && c in h[n].kids
    requires h[c].name in h[n].data && !h[n].data[h[c].name].Obj?
    ensures !Mirror(h)
  {
    assert !Copied(h, n, c);
  }

  /** ... and then it changes that one value of x and no own value of any node besides. */
  lemma PutSetsOneValue(h: Heap, x: JSonNode, k: string, v: Json, n: JSonNode)
    requires Mirror(h) && x in h && n in h && WellPlaced(h, x) && !IsKidName(h, x, k)
    ensures n in Put(h, x, k, v) && WellPlaced(h, n) && WellPlaced(Put(h, x, k, v), n)
    ensures Own(Put(h, x, k, v), n) == if n == x then Own(h, x)[k := v] else Own(h, n)
  {
    hide Push, Attached, AttachedTo, MirrorBut, Tree, WellPlaced, SameShape, Own, IsKidName;
    var h1 := WithData(h, x, h[x].data[k := v]);
    WithDataKeepsShape(h, x, h[x].data[k := v]);
    ShapeAttaches(h1, h[x].depth);
    PushKeepsOwn(h1, x, n);
    if n == x {
      WithValueOwn(h, x, k, v);
    } else {
      SameOwn(h, h1, n);
    }
  }

  lemma WithValueOwn(h: Heap, x: JSonNode, k: string, v: Json)
    requires x in h && WellPlaced(h, x) && WellPlaced(WithData(h, x, h[x].data[k := v]), x)
    requires !IsKidName(h, x, k)
    ensures Own(WithData(h, x, h[x].data[k := v]), x) == Own(h, x)[k := v]
  {
    hide WellPlaced;
    var h1 := WithData(h, x, h[x].data[k := v]);
    assert forall k' :: IsKidName(h1, x, k') <==> IsKidName(h, x, k');
  }

  lemma ShapeAttaches(h: Heap, d: nat)
    requires Tree(h) && Attached(h)
    ensures AttachedTo(h, d)
  {
  }

  // ---------- children ----------

  /** All is well except that c is not yet listed by its parent x. */
  ghost predicate Joining(h: Heap, x: JSonNode, c: JSonNode) {
    && x in h && c in h && h[c].parent == x && c !in h[x].kids
    && Tree(h) && MirrorBut(h, null)
    && forall n :: n in h && n != c && h[n].parent != null ==> n in h[h[n].parent].kids
  }

  function Listed(h: Heap, x: JSonNode, c: JSonNode): Heap
    requires x in h && c in h
  {
    h[x := h[x].(kids := h[x].kids + [c], data := h[x].data[h[c].name := Obj(h[c].data)])]
  }

  /** Data is irrelevant to a node's place, and so are the lists of other nodes. */
  lemma PlaceKept(h: Heap, h': Heap, n: JSonNode)
    requires n in h && n in h' && h.Keys == h'.Keys && WellPlaced(h, n) && h'[n].kids == h[n].kids
    requires forall m :: m in h ==> h'[m].parent == h[m].parent && h'[m].name == h[m].name && h'[m].depth == h[m].depth
    ensures WellPlaced(h', n)
  {
  }

  lemma ListedIsPlaced(h: Heap, x: JSonNode, c: JSonNode)
    requires x in h && c in h && h[c].parent == x && c !in h[x].kids && WellPlaced(h, x) && !IsKidName(h, x, h[c].name)
    ensures WellPlaced(Listed(h, x, c), x)
  {
    NoDupSnoc<JSonNode>(h[x].kids, c);
    hide NoDup;
  }

  lemma ListedIsTree(h: Heap, x: JSonNode, c: JSonNode)
    requires Joining(h, x, c) && WellPlaced(h, x) && !IsKidName(h, x, h[c].name)
    ensures Tree(Listed(h, x, c)) && Attached(Listed(h, x, c))
  {
    hide MirrorBut, WellPlaced;
    ListedIsPlaced(h, x, c);
    forall n | n in Listed(h, x, c)
      ensures WellPlaced(Listed(h, x, c), n)
    {
      if n != x {
        PlaceKept(h, Listed(h, x, c), n);
      }
    }
  }

  lemma ListedMirrorsAt(h: Heap, x: JSonNode, c: JSonNode, n: JSonNode)
    requires x in h && c in h && n in h && c != x && WellPlaced(h, x) && WellPlaced(h, n) && WellPlaced(Listed(h, x, c), n)
    requires !IsKidName(h, x, h[c].name) && Mirrors(h, n, null)
    ensures Mirrors(Listed(h, x, c), n, x)
  {
    var h1 := Listed(h, x, c);
    forall d | d in h1[n].kids && d != x
      ensures Copied(h1, n, d)
    {
      assert d in h[n].kids ==> Copied(h, n, d);
    }
  }

  lemma ListedIsGrounded(h: Heap, x: JSonNode, c: JSonNode)
    requires Joining(h, x, c)
    ensures Grounded(Listed(h, x, c))
  {
    hide MirrorBut, Mirrors;
    TreeIsGrounded(h);
  }

  /** addSubNode */
  ghost function AddKid(h: Heap, x: JSonNode, c: JSonNode): Heap
    requires Joining(h, x, c)
  {
    ListedIsGrounded(h, x, c);
    Push(Listed(h, x, c), x)
  }

  /** The child is listed last; nobody else's place or name changes. */
  lemma AddKidListsLast(h: Heap, x: JSonNode, c: JSonNode, n: JSonNode)
    requires Joining(h, x, c) && n in h
    ensures
      var h' := AddKid(h, x, c);
      && h'.Keys == h.Keys && h'[n].kids == (if n == x then h[x].kids + [c] else h[n].kids)
      && h'[n].name == h[n].name && h'[n].parent == h[n].parent && h'[n].depth == h[n].depth
  {
    hide Push, Tree, MirrorBut;
    ListedIsGrounded(h, x, c);
    PushKeepsShape(Listed(h, x, c), x);
  }

  lemma AddKidMirrors(h: Heap, x: JSonNode, c: JSonNode)
    requires Joining(h, x, c) && WellPlaced(h, x) && !IsKidName(h, x, h[c].name)
    ensures Mirror(AddKid(h, x, c))
  {
    hide Push, WellPlaced, Mirrors, IsKidName, Attached;
    ListedIsTree(h, x, c);
    ListedIsGrounded(h, x, c);
    ParentDiffers(h, x, c);
    var h1 := Listed(h, x, c);
    forall n | n in h1
      ensures Mirrors(h1, n, x)
    {
      ListedMirrorsAt(h, x, c, n);
    }
    PushedIsMirror(h1, x);
  }

  lemma ClashBreaksTree(h: Heap, x: JSonNode, c: JSonNode)
    requires Joining(h, x, c) && WellPlaced(h, x) && IsKidName(h, x, h[c].name)
    ensures !Tree(AddKid(h, x, c))
  {
    hide Push, MirrorBut;
    ListedIsGrounded(h, x, c);
    var h1 := Listed(h, x, c);
    PushKeepsShape(h1, x);
    var h' := Push(h1, x);
    var d: JSonNode :| d in h[x].kids && h[d].name == h[c].name;
    assert d in h'[x].kids && c in h'[x].kids && c != d && h'[d].name == h'[c].name;
    assert !WellPlaced(h', x);
  }

  /** Adding a child, with its whole subtree, keeps the mirror exactly when no sibling has its name. */
  lemma AddKidMirrorsExactly(h: Heap, x: JSonNode, c: JSonNode)
    requires Joining(h, x, c)
    ensures WellPlaced(h, x) && (Mirror(AddKid(h, x, c)) <==> !IsKidName(h, x, h[c].name))
  {
    PlacedIn(h, x);
    hide Push, WellPlaced, IsKidName;
    if IsKidName(h, x, h[c].name) {
      ClashBreaksTree(h, x, c);
    } else {
      AddKidMirrors(h, x, c);
    }
  }

  // ---------- what a name clash does to the copies ----------

  predicate SameButKids(a: Heap, b: Heap) {
    a.Keys == b.Keys && forall n :: n in a ==> b[n] == a[n].(kids := b[n].kids)
  }

  /** Who lists whom is irrelevant to a push. */
  lemma {:induction false} PushIgnoresKids(a: Heap, b: Heap, x: JSonNode)
    requires x in a && Grounded(a) && Grounded(b) && SameButKids(a, b)
    ensures SameButKids(Push(a, x), Push(b, x))
    decreases a[x].depth
  {
    hide Push, Grounded, SameShape;
    if a[x].parent == null {
      PushAtRoot(a, x);
      PushAtRoot(b, x);
    } else {
      PushUnfolds(a, x);
      PushUnfolds(b, x);
      ShapeAt(a, Store(a, x), a[x].parent);
      PushIgnoresKids(Store(a, x), Store(b, x), a[x].parent);
    }
  }

  /** x without d in its list, the data as before. */
  function Unlinked(h: Heap, x: JSonNode, d: JSonNode): Heap
    requires x in h
  {
    h[x := h[x].(kids := Without<JSonNode>(h[x].kids, d))]
  }

  lemma UnlinkedAt(h: Heap, x: JSonNode, d: JSonNode, n: JSonNode)
    requires x in h && n in h && WellPlaced(h, n) && WellPlaced(h, x) && Mirrors(h, n, null)
    ensures WellPlaced(Unlinked(h, x, d), n) && Mirrors(Unlinked(h, x, d), n, null)
  {
    var u := Unlinked(h, x, d);
    if n == x {
      WithoutRemoves<JSonNode>(h[x].kids, d);
      hide Without, NoDup;
      assert NoDup(u[x].kids) && forall c :: c in u[x].kids ==> c in h[x].kids;
    } else {
      PlaceKept(h, u, n);
    }
    forall c | c in u[n].kids
      ensures Copied(u, n, c)
    {
      assert Copied(h, n, c);
    }
  }

  lemma UnlinkedIsTree(h: Heap, x: JSonNode, d: JSonNode)
    requires x in h && Tree(h) && MirrorBut(h, null)
    ensures Tree(Unlinked(h, x, d)) && MirrorBut(Unlinked(h, x, d), null)
  {
    hide Mirrors, WellPlaced;
    PlacedIn(h, x);
    forall n | n in Unlinked(h, x, d)
      ensures WellPlaced(Unlinked(h, x, d), n) && Mirrors(Unlinked(h, x, d), n, null)
    {
      UnlinkedAt(h, x, d, n);
    }
  }

  lemma UnlinkedKids(h: Heap, x: JSonNode, d: JSonNode)
    requires x in h && WellPlaced(h, x)
    ensures forall e :: e in Unlinked(h, x, d)[x].kids <==> e in h[x].kids && e != d
  {
    WithoutRemoves<JSonNode>(h[x].kids, d);
  }

  lemma UnlinkedFreesName(h: Heap, x: JSonNode, d: JSonNode)
    requires x in h && d in h && WellPlaced(h, x) && WellPlaced(Unlinked(h, x, d), x) && d in h[x].kids
    ensures !IsKidName(Unlinked(h, x, d), x, h[d].name)
  {
    UnlinkedKids(h, x, d);
    hide Without, NoDup;
  }

  /** Listing c under x, where its name is free. */
  lemma ListedAnyway(h: Heap, x: JSonNode, c: JSonNode)
    requires x in h && c in h && h[c].parent == x && c !in h[x].kids && Tree(h) && MirrorBut(h, null)
    requires WellPlaced(h, x) && !IsKidName(h, x, h[c].name)
    ensures Tree(Listed(h, x, c)) && MirrorBut(Listed(h, x, c), x)
  {
    ParentDiffers(h, x, c);
    hide Mirrors, WellPlaced, IsKidName;
    ListedIsPlaced(h, x, c);
    forall n | n in Listed(h, x, c)
      ensures WellPlaced(Listed(h, x, c), n) && Mirrors(Listed(h, x, c), n, x)
    {
      if n != x {
        PlaceKept(h, Listed(h, x, c), n);
      }
      ListedMirrorsAt(h, x, c, n);
    }
  }

  /** In place of a sibling d of the same name, c can be listed: then only the data of x is still to be
      pushed up. */
  lemma ReplacedIsTree(h: Heap, x: JSonNode, c: JSonNode, d: JSonNode)
    requires Joining(h, x, c) && d in h[x].kids && d in h && h[d].name == h[c].name
    ensures
      var r := Listed(Unlinked(h, x, d), x, c);
      && Tree(r) && MirrorBut(r, x)
      && forall e :: e in r[x].kids <==> (e in h[x].kids && e != d) || e == c
  {
    PlacedIn(h, x);
    hide Mirrors, WellPlaced, IsKidName, Without;
    UnlinkedIsTree(h, x, d);
    PlacedIn(Unlinked(h, x, d), x);
    UnlinkedKids(h, x, d);
    hide MirrorBut, Tree;
    UnlinkedFreesName(h, x, d);
    ListedAnyway(Unlinked(h, x, d), x, c);
  }

  lemma ReplacedIsAttached(h: Heap, x: JSonNode, c: JSonNode, d: JSonNode)
    requires Joining(h, x, c) && Tree(Listed(Unlinked(h, x, d), x, c))
    ensures AttachedTo(Listed(Unlinked(h, x, d), x, c), h[x].depth)
  {
    hide MirrorBut, Without;
    ParentDiffers(h, x, c);
    TreeIsGrounded(h);
  }

  lemma ReplacedInKidsOnly(h: Heap, x: JSonNode, c: JSonNode, d: JSonNode)
    requires x in h && c in h
    ensures SameButKids(Listed(h, x, c), Listed(Unlinked(h, x, d), x, c))
  {
    hide Without;
  }

  /** The tree after c was added in place of d differs from the tree with both only in the list of x. */
  lemma ClashPushes(h: Heap, x: JSonNode, c: JSonNode, d: JSonNode)
    requires Joining(h, x, c) && d in h[x].kids && d in h && h[d].name == h[c].name
    ensures
      var b := Listed(Unlinked(h, x, d), x, c);
      && Grounded(b) && SameButKids(AddKid(h, x, c), Push(b, x))
      && Tree(Push(b, x)) && MirrorBut(Push(b, x), null) && SameShape(b, Push(b, x))
  {
    hide Push, Grounded, AttachedTo, MirrorBut, SameButKids, SameShape, Tree;
    var a, b := Listed(h, x, c), Listed(Unlinked(h, x, d), x, c);
    ReplacedIsTree(h, x, c, d);
    ReplacedIsAttached(h, x, c, d);
    ListedIsGrounded(h, x, c);
    ReplacedInKidsOnly(h, x, c, d);
    TreeIsGrounded(b);
    PushMirrors(b, x);
    PushIgnoresKids(a, b, x);
    PushKeepsShape(b, x);
  }

  /** Who lists whom after c was added. */
  lemma ClashShape(h: Heap, x: JSonNode, c: JSonNode)
    requires Joining(h, x, c)
    ensures
      var h' := AddKid(h, x, c);
      && h'.Keys == h.Keys && h'[x].kids == h[x].kids + [c] && SameBelow(Listed(h, x, c), h', h[x].depth)
      && (forall n :: n in h && n != x ==> h'[n].kids == h[n].kids)
      && forall n :: n in h ==> h'[n].name == h[n].name && h'[n].parent == h[n].parent
  {
    hide Push, MirrorBut, Tree, SameBelow;
    ListedIsGrounded(h, x, c);
    PushKeepsShape(Listed(h, x, c), x);
  }

  /** A child added under the name of a sibling takes over its copy: the sibling's copy is wrong exactly
      when the data of the two differ. */
  lemma ClashSpoilsCopyExactly(h: Heap, x: JSonNode, c: JSonNode, d: JSonNode)
    requires Joining(h, x, c) && d in h[x].kids && d in h && h[d].name == h[c].name
    ensures x in AddKid(h, x, c) && d in AddKid(h, x, c) && d in AddKid(h, x, c)[x].kids
    ensures Copied(AddKid(h, x, c), x, d) <==> h[d].data == h[c].data
  {
    KidsParent(h, x, d);
    ParentDiffers(h, x, c);
    ParentDiffers(h, x, d);
    hide Joining, Tree, WellPlaced, AddKid;
    ClashShape(h, x, c);
  }

  /** And every other copy in the tree is right, up to the root document. */
  lemma ClashSparesOthers(h: Heap, x: JSonNode, c: JSonNode, d: JSonNode, n: JSonNode, e: JSonNode)
    requires Joining(h, x, c) && d in h[x].kids && d in h && h[d].name == h[c].name
    requires n in AddKid(h, x, c) && e in AddKid(h, x, c)[n].kids && e != d
    ensures e in AddKid(h, x, c) && Copied(AddKid(h, x, c), n, e)
    ensures AddKid(h, x, c)[n].parent == null ==> AddKid(h, x, c)[n].doc == AddKid(h, x, c)[n].data
  {
    hide Push, Tree, MirrorBut, Without, AddKid, Grounded;
    var b := Listed(Unlinked(h, x, d), x, c);
    ClashPushes(h, x, c, d);
    ClashShape(h, x, c);
    ReplacedIsTree(h, x, c, d);
    hide Joining, SameBelow;
    var g := Push(b, x);
    ShapeAt(b, g, n);
    assert e in g[n].kids;
    CopiedIn(g, n, e);
    if g[n].parent == null {
      DocumentIn(g, n);
    }
  }

  lemma CopiedIn(h: Heap, n: JSonNode, e: JSonNode)
    requires Tree(h) && MirrorBut(h, null) && n in h && e in h[n].kids
    ensures e in h && Copied(h, n, e)
  {
    KidsParent(h, n, e);
    assert Mirrors(h, n, null);
  }

  lemma DocumentIn(h: Heap, n: JSonNode)
    requires Tree(h) && MirrorBut(h, null) && n in h && h[n].parent == null
    ensures h[n].doc == h[n].data
  {
    assert Mirrors(h, n, null);
  }

  lemma ParentDiffers(h: Heap, x: JSonNode, c: JSonNode)
    requires x in h && c in h && Tree(h) && h[c].parent == x
    ensures x != c && h[c].depth == h[x].depth + 1
  {
    assert WellPlaced(h, c);
  }

  function Unlisted(h: Heap, x: JSonNode, c: JSonNode): Heap
    requires x in h && c in h
  {
    h[x := h[x].(kids := Without<JSonNode>(h[x].kids, c), data := h[x].data - {h[c].name})]
  }

  lemma UnlistedIsPlaced(h: Heap, x: JSonNode, c: JSonNode)
    requires x in h && c in h && WellPlaced(h, x)
    ensures WellPlaced(Unlisted(h, x, c), x)
    ensures forall d :: d in Unlisted(h, x, c)[x].kids <==> d in h[x].kids && d != c
  {
    var h1, kids := Unlisted(h, x, c), Without<JSonNode>(h[x].kids, c);
    WithoutRemoves<JSonNode>(h[x].kids, c);
    assert NoDup(kids);
    assert forall d :: d in kids ==> d in h[x].kids;
    assert forall d :: d in kids ==> d in h1 && h1[d].name == h[d].name;
    assert forall d :: d in kids ==> h1[d].parent == x;
  }

  lemma UnlistedIsTree(h: Heap, x: JSonNode, c: JSonNode)
    requires x in h && c in h && Tree(h) && Attached(h) && c in h[x].kids
    ensures Tree(Unlisted(h, x, c)) && AttachedTo(Unlisted(h, x, c), h[x].depth)
  {
    KidsParent(h, x, c);
    ParentDiffers(h, x, c);
    hide WellPlaced, Without;
    UnlistedIsPlaced(h, x, c);
    forall n | n in Unlisted(h, x, c)
      ensures WellPlaced(Unlisted(h, x, c), n)
    {
      if n != x {
        PlaceKept(h, Unlisted(h, x, c), n);
      }
    }
  }

  lemma KidsParent(h: Heap, x: JSonNode, c: JSonNode)
    requires x in h && Tree(h) && c in h[x].kids
    ensures c in h && h[c].parent == x && WellPlaced(h, x)
  {
    assert WellPlaced(h, x);
  }

  lemma UnlistedMirrorsAt(h: Heap, x: JSonNode, c: JSonNode, n: JSonNode)
    requires x in h && c in h && n in h && c in h[x].kids && WellPlaced(h, x) && WellPlaced(h, n)
    requires WellPlaced(Unlisted(h, x, c), n) && Mirrors(h, n, null)
    ensures Mirrors(Unlisted(h, x, c), n, x)
  {
    var h1 := Unlisted(h, x, c);
    WithoutRemoves<JSonNode>(h[x].kids, c);
    hide Without, NoDup;
    forall d | d in h1[n].kids && d != x
      ensures Copied(h1, n, d)
    {
      assert Copied(h, n, d);
    }
  }

  /** c or one of its descendants. */
  ghost predicate Under(h: Heap, n: JSonNode, c: JSonNode)
    requires n in h && Tree(h)
    decreases h[n].depth
  {
    assert WellPlaced(h, n);
    n == c || (h[n].parent != null && Under(h, h[n].parent, c))
  }

  /** What is left of the tree without c. */
  ghost function Prune(h: Heap, c: JSonNode): Heap
    requires Tree(h)
  {
    map n | n in h && !Under(h, n, c) :: h[n]
  }

  /** removeSubNode; the removed node is deleted with everything below it. */
  ghost function RemoveKid(h: Heap, x: JSonNode, c: JSonNode): Heap
    requires x in h && Mirror(h) && c in h[x].kids
  {
    KidsParent(h, x, c);
    UnlistedIsTree(h, x, c);
    PushKeepsShape(Unlisted(h, x, c), x);
    ShapeKept(Unlisted(h, x, c), Push(Unlisted(h, x, c), x));
    Prune(Push(Unlisted(h, x, c), x), c)
  }

  lemma PruneIsPlaced(h: Heap, c: JSonNode, n: JSonNode)
    requires Tree(h) && n in Prune(h, c) && c !in h[n].kids
    ensures n in h && WellPlaced(h, n) && WellPlaced(Prune(h, c), n)
  {
    assert WellPlaced(h, n);
    var p := h[n].parent;
    assert p != null ==> !Under(h, p, c);
    forall d | d in h[n].kids
      ensures d in Prune(h, c)
    {
      assert !Under(h, d, c);
    }
  }

  /** Deleting an unlisted subtree leaves a steady state. */
  lemma PruneMirrors(h: Heap, c: JSonNode)
    requires Tree(h) && MirrorBut(h, null)
    requires forall n :: n in h ==> c !in h[n].kids
    requires forall n :: n in h && n != c && h[n].parent != null ==> n in h[h[n].parent].kids
    ensures Mirror(Prune(h, c))
  {
    hide WellPlaced;
    var h' := Prune(h, c);
    forall n | n in h'
      ensures WellPlaced(h', n) && Mirrors(h', n, null)
    {
      PruneIsPlaced(h, c, n);
      PruneMirrorsAt(h, c, n);
    }
  }

  lemma PruneMirrorsAt(h: Heap, c: JSonNode, n: JSonNode)
    requires Tree(h) && n in Prune(h, c) && WellPlaced(h, n) && WellPlaced(Prune(h, c), n) && Mirrors(h, n, null)
    ensures Mirrors(Prune(h, c), n, null)
  {
    forall d | d in h[n].kids
      ensures Copied(Prune(h, c), n, d)
    {
      assert Copied(h, n, d);
    }
  }

  lemma UnlistedMirrors(h: Heap, x: JSonNode, c: JSonNode)
    requires x in h && c in h && Mirror(h) && c in h[x].kids
    ensures Tree(Unlisted(h, x, c)) && MirrorBut(Unlisted(h, x, c), x)
  {
    hide WellPlaced, Mirrors, Attached;
    UnlistedIsTree(h, x, c);
    var h1 := Unlisted(h, x, c);
    forall n | n in h1
      ensures Mirrors(h1, n, x)
    {
      UnlistedMirrorsAt(h, x, c, n);
    }
  }

  /** Where c was listed by x it no longer is, and everyone else is where they were. */
  lemma UnlistedOnlyC(h: Heap, x: JSonNode, c: JSonNode)
    requires x in h && c in h && Tree(h) && Attached(h) && c in h[x].kids
    ensures var h1 := Unlisted(h, x, c);
            && (forall n :: n in h1 ==> c !in h1[n].kids)
            && (forall n :: n in h1 && n != c && h1[n].parent != null ==> h1[n].parent in h1 && n in h1[h1[n].parent].kids)
  {
    KidsParent(h, x, c);
    UnlistedIsPlaced(h, x, c);
    hide Without;
    forall n | n in h
      ensures WellPlaced(h, n)
    {
    }
  }

  /** Removing a child re-establishes the mirror for everyone who is left, without the child's name
      in the data of x. */
  lemma RemoveKidMirrors(h: Heap, x: JSonNode, c: JSonNode)
    requires x in h && Mirror(h) && c in h[x].kids
    ensures c in h && Mirror(RemoveKid(h, x, c)) && c !in RemoveKid(h, x, c)
    ensures x in RemoveKid(h, x, c) && h[c].name !in RemoveKid(h, x, c)[x].data
  {
    hide Push, MirrorBut, WellPlaced, Attached;
    KidsParent(h, x, c);
    ParentDiffers(h, x, c);
    UnlistedIsTree(h, x, c);
    UnlistedMirrors(h, x, c);
    UnlistedOnlyC(h, x, c);
    var h1 := Unlisted(h, x, c);
    TreeIsGrounded(h1);
    PushMirrors(h1, x);
    PushKeepsShape(h1, x);
    PruneMirrors(Push(h1, x), c);
    AboveIsNotUnder(Push(h1, x), x, c);
  }

  lemma {:induction false} AboveIsNotUnder(h: Heap, n: JSonNode, c: JSonNode)
    requires n in h && c in h && Tree(h) && h[n].depth < h[c].depth
    ensures !Under(h, n, c) && Under(h, c, c)
    decreases h[n].depth
  {
    assert WellPlaced(h, n);
    if h[n].parent != null {
      AboveIsNotUnder(h, h[n].parent, c);
    }
  }

  lemma ListedOwn(h: Heap, x: JSonNode, c: JSonNode)
    requires x in h && c in h && WellPlaced(h, x) && WellPlaced(Listed(h, x, c), x)
    ensures Own(Listed(h, x, c), x) == Own(h, x) - {h[c].name}
  {
    hide WellPlaced;
    KidsAreIn(h, x);
    var h1 := Listed(h, x, c);
    assert forall d :: d in h1[x].kids <==> d in h[x].kids || d == c;
    assert forall d :: d in h ==> h1[d].name == h[d].name;
    assert forall k :: IsKidName(h1, x, k) <==> IsKidName(h, x, k) || k == h[c].name;
  }

  /** A new child takes over its name in the data of x and touches no other value of any node. */
  lemma AddKidKeepsOwn(h: Heap, x: JSonNode, c: JSonNode, n: JSonNode)
    requires Joining(h, x, c) && WellPlaced(h, x) && !IsKidName(h, x, h[c].name) && n in h
    ensures n in AddKid(h, x, c) && WellPlaced(h, n) && WellPlaced(AddKid(h, x, c), n)
    ensures Own(AddKid(h, x, c), n) == if n == x then Own(h, x) - {h[c].name} else Own(h, n)
  {
    hide Push, WellPlaced, Own, IsKidName, MirrorBut, Attached, AttachedTo, Tree;
    var h1 := Listed(h, x, c);
    ListedIsTree(h, x, c);
    ListedIsGrounded(h, x, c);
    ShapeAttaches(h1, h[x].depth);
    PlacedIn(h, n);
    PlacedIn(h1, n);
    PushKeepsOwn(h1, x, n);
    if n == x {
      ListedOwn(h, x, c);
    } else {
      KidsAreIn(h, n);
      OwnAgrees(h, h1, n);
    }
  }

  lemma KidsAreIn(h: Heap, n: JSonNode)
    requires n in h && WellPlaced(h, n)
    ensures forall c :: c in h[n].kids ==> c in h
  {
  }

  lemma UnlistedOwn(h: Heap, x: JSonNode, c: JSonNode)
    requires x in h && c in h[x].kids && WellPlaced(h, x) && WellPlaced(Unlisted(h, x, c), x)
    ensures Own(Unlisted(h, x, c), x) == Own(h, x)
  {
    UnlistedIsPlaced(h, x, c);
    hide Without;
    var h1 := Unlisted(h, x, c);
    assert forall k :: IsKidName(h, x, k) <==> IsKidName(h1, x, k) || k == h[c].name;
  }

  /** The values of those who are left stay as they are. */
  lemma RemoveKidKeepsOwn(h: Heap, x: JSonNode, c: JSonNode, n: JSonNode)
    requires x in h && Mirror(h) && c in h[x].kids && n in RemoveKid(h, x, c)
    ensures n in h && WellPlaced(h, n) && WellPlaced(RemoveKid(h, x, c), n)
    ensures Own(RemoveKid(h, x, c), n) == Own(h, n)
  {
    hide Push, WellPlaced, Own, IsKidName, MirrorBut, Attached, AttachedTo, Tree, Without, SameBelow, Prune;
    KidsParent(h, x, c);
    UnlistedIsTree(h, x, c);
    var h1 := Unlisted(h, x, c);
    TreeIsGrounded(h1);
    PushKeepsShape(h1, x);
    ShapeKept(h1, Push(h1, x));
    RemoveKidMirrors(h, x, c);
    PrunedFrom(Push(h1, x), c, n);
    PlacedIn(h, n);
    PlacedIn(h1, n);
    PlacedIn(RemoveKid(h, x, c), n);
    PushKeepsOwn(h1, x, n);
    KidsAreIn(RemoveKid(h, x, c), n);
    PrunedOwn(Push(h1, x), c, n);
    if n == x {
      UnlistedOwn(h, x, c);
    } else {
      KidsAreIn(h, n);
      OwnAgrees(h, h1, n);
    }
  }

  /** A node is under c in a tree of the same shape if and only if it is under c. */
  lemma {:induction false} UnderKept(h: Heap, h': Heap, n: JSonNode, c: JSonNode)
    requires n in h && Tree(h) && Tree(h') && h'.Keys == h.Keys
    requires forall m :: m in h ==> h'[m].parent == h[m].parent && h'[m].depth == h[m].depth
    ensures Under(h', n, c) <==> Under(h, n, c)
    decreases h[n].depth
  {
    hide Tree;
    PlacedIn(h, n);
    PlacedIn(h', n);
    if n != c && h[n].parent != null {
      ParentAbove(h, n);
      UnderKept(h, h', h[n].parent, c);
    }
    UnderUnfolds(h, n, c);
    UnderUnfolds(h', n, c);
  }

  lemma ParentAbove(h: Heap, n: JSonNode)
    requires n in h && WellPlaced(h, n) && h[n].parent != null
    ensures h[n].parent in h && h[h[n].parent].depth < h[n].depth
  {
  }

  lemma UnderUnfolds(h: Heap, n: JSonNode, c: JSonNode)
    requires n in h && Tree(h)
    ensures h[n].parent != null ==> h[n].parent in h
    ensures Under(h, n, c) <==> n == c || (h[n].parent != null && Under(h, h[n].parent, c))
  {
    assert WellPlaced(h, n);
  }

  /** Exactly c and its descendants go; of the rest only x's list of children loses c. */
  lemma RemoveKidTakesExactly(h: Heap, x: JSonNode, c: JSonNode, n: JSonNode)
    requires x in h && Mirror(h) && c in h[x].kids
    ensures
      var h' := RemoveKid(h, x, c);
      && (n in h' <==> n in h && !Under(h, n, c))
      && (n in h' ==>
            && h'[n].name == h[n].name && h'[n].parent == h[n].parent && h'[n].depth == h[n].depth
            && h'[n].kids == if n == x then Without<JSonNode>(h[x].kids, c) else h[n].kids)
  {
    hide Push, MirrorBut, Attached, AttachedTo, Without, SameBelow, WellPlaced;
    KidsParent(h, x, c);
    UnlistedIsTree(h, x, c);
    var h1 := Unlisted(h, x, c);
    TreeIsGrounded(h1);
    PushKeepsShape(h1, x);
    hide Tree, Grounded;
    ShapeKept(h1, Push(h1, x));
    if n in h {
      UnderKept(h, Push(h1, x), n, c);
    }
  }

  lemma PrunedFrom(h: Heap, c: JSonNode, n: JSonNode)
    requires Tree(h) && n in Prune(h, c)
    ensures n in h && Prune(h, c)[n] == h[n] && WellPlaced(h, n)
  {
  }

  lemma PrunedOwn(h: Heap, c: JSonNode, n: JSonNode)
    requires Tree(h) && n in Prune(h, c) && WellPlaced(h, n) && WellPlaced(Prune(h, c), n)
    ensures Own(Prune(h, c), n) == Own(h, n)
  {
    hide Own, IsKidName;
    OwnAgrees(h, Prune(h, c), n);
  }

  // ---------- names ----------

  function Renamed(h: Heap, x: JSonNode, k: string): Heap
    requires x in h && h[x].parent != null && h[x].parent in h && h[x].parent != x
  {
    var p := h[x].parent;
    h[p := h[p].(data := h[p].data - {h[x].name})][x := h[x].(name := k)]
  }

  lemma RenamedIsPlaced(h: Heap, x: JSonNode, k: string, n: JSonNode)
    requires x in h && n in h && h[x].parent != null && h[x].parent in h && h[x].parent != x
    requires WellPlaced(h, n) && Mirrors(h, n, null) && k !in h[h[x].parent].data
    ensures WellPlaced(Renamed(h, x, k), n)
  {
    assert forall c :: c in h[n].kids ==> Copied(h, n, c);
  }

  lemma RenamedIsWhole(h: Heap, x: JSonNode, k: string)
    requires Tree(h) && MirrorBut(h, null) && x in h && h[x].parent != null && h[x].parent in h && h[x].parent != x
    requires k !in h[h[x].parent].data
    ensures Tree(Renamed(h, x, k))
  {
    hide WellPlaced, Mirrors, Renamed;
    RenamedKeys(h, x, k);
    forall n | n in Renamed(h, x, k)
      ensures WellPlaced(Renamed(h, x, k), n)
    {
      RenamedIsPlaced(h, x, k, n);
    }
  }

  lemma RenamedKeys(h: Heap, x: JSonNode, k: string)
    requires x in h && h[x].parent != null && h[x].parent in h && h[x].parent != x
    ensures var h1 := Renamed(h, x, k);
            h1.Keys == h.Keys && forall n :: n in h ==> h1[n].parent == h[n].parent && h1[n].kids == h[n].kids
  {
  }

  lemma AttachmentKept(h: Heap, h': Heap)
    requires Tree(h) && Tree(h') && Attached(h) && h'.Keys == h.Keys
    requires forall n :: n in h ==> h'[n].parent == h[n].parent && h'[n].kids == h[n].kids
    ensures Attached(h')
  {
  }

  lemma RenamedIsTree(h: Heap, x: JSonNode, k: string)
    requires Mirror(h) && x in h && h[x].parent != null && h[x].parent in h && k !in h[h[x].parent].data
    ensures h[x].parent != x && x in h[h[x].parent].kids
    ensures Tree(Renamed(h, x, k)) && Attached(Renamed(h, x, k))
  {
    hide Tree, MirrorBut;
    ParentDiffers(h, h[x].parent, x);
    RenamedIsWhole(h, x, k);
    RenamedKeys(h, x, k);
    AttachmentKept(h, Renamed(h, x, k));
  }

  /** Once the parent has stored x under its new name, only the parent's own copy is out of date. */
  lemma MovedMirrorsAt(h: Heap, x: JSonNode, k: string, n: JSonNode)
    requires x in h && n in h && h[x].parent != null && h[x].parent in h && h[x].parent != x && x in h[h[x].parent].kids
    requires k !in h[h[x].parent].data
    requires WellPlaced(h, n) && Mirrors(h, n, null) && WellPlaced(Store(Renamed(h, x, k), x), n)
    ensures Mirrors(Store(Renamed(h, x, k), x), n, h[x].parent)
  {
    var h2, p := Store(Renamed(h, x, k), x), h[x].parent;
    forall c | c in h2[n].kids && c != p
      ensures Copied(h2, n, c)
    {
      assert Copied(h, n, c) && h[c].parent == n;
    }
  }

  /** rename */
  ghost function Rename(h: Heap, x: JSonNode, k: string): Heap
    requires x in h && Mirror(h)
  {
    var p := h[x].parent;
    assert WellPlaced(h, x);
    if p == null || k in h[p].data then h
    else
      RenamedIsTree(h, x, k);
      Push(Renamed(h, x, k), x)
  }

  /** Renaming keeps the mirror, and with it the names of siblings apart. */
  lemma RenameMirrors(h: Heap, x: JSonNode, k: string)
    requires x in h && Mirror(h)
    ensures Mirror(Rename(h, x, k))
  {
    assert WellPlaced(h, x);
    var p := h[x].parent;
    if p != null && k !in h[p].data {
      hide Push, WellPlaced, Mirrors, Attached;
      RenamedIsTree(h, x, k);
      var h1 := Renamed(h, x, k);
      TreeIsGrounded(h1);
      PushUnfolds(h1, x);
      var h2 := Store(h1, x);
      ShapeKept(h1, h2);
      forall n | n in h2
        ensures Mirrors(h2, n, p)
      {
        MovedMirrorsAt(h, x, k, n);
      }
      PushedIsMirror(h2, p);
    }
  }

  lemma RenamedOwnAtParent(h: Heap, x: JSonNode, k: string)
    requires x in h && h[x].parent != null && h[x].parent in h && h[x].parent != x && x in h[h[x].parent].kids
    requires k !in h[h[x].parent].data && WellPlaced(h, h[x].parent) && WellPlaced(Renamed(h, x, k), h[x].parent)
    ensures Own(Renamed(h, x, k), h[x].parent) == Own(h, h[x].parent)
  {
    var h1, p := Renamed(h, x, k), h[x].parent;
    KidsAreIn(h, p);
    hide WellPlaced;
    assert forall d :: d in h[p].kids && d != x ==> h1[d].name == h[d].name;
    assert forall j :: j != k && j != h[x].name ==> (IsKidName(h1, p, j) <==> IsKidName(h, p, j));
    assert IsKidName(h, p, h[x].name) && IsKidName(h1, p, k);
  }

  lemma RenamedOwn(h: Heap, x: JSonNode, k: string, n: JSonNode)
    requires Mirror(h) && x in h && n in h && h[x].parent != null && h[x].parent in h && k !in h[h[x].parent].data
    requires h[x].parent != x && x in h[h[x].parent].kids && WellPlaced(h, n) && WellPlaced(Renamed(h, x, k), n)
    ensures Own(Renamed(h, x, k), n) == Own(h, n)
  {
    hide Tree, Attached, MirrorBut, WellPlaced, Own, IsKidName;
    if n == h[x].parent {
      RenamedOwnAtParent(h, x, k);
    } else {
      KidIsElsewhere(h, x, n);
      KidsAreIn(h, n);
      OwnAgrees(h, Renamed(h, x, k), n);
    }
  }

  lemma KidIsElsewhere(h: Heap, x: JSonNode, n: JSonNode)
    requires x in h && n in h && Tree(h) && h[x].parent != n
    ensures x !in h[n].kids
  {
    assert WellPlaced(h, n);
  }

  /** ... and no node's own values. */
  lemma RenameKeepsOwn(h: Heap, x: JSonNode, k: string, n: JSonNode)
    requires x in h && n in h && Mirror(h)
    ensures n in Rename(h, x, k) && WellPlaced(h, n) && WellPlaced(Rename(h, x, k), n)
    ensures Own(Rename(h, x, k), n) == Own(h, n)
  {
    assert WellPlaced(h, x) && WellPlaced(h, n);
    var p := h[x].parent;
    if p != null && k !in h[p].data {
      RenamedIsTree(h, x, k);
      var h1 := Renamed(h, x, k);
      ShapeAttaches(h1, h1[x].depth);
      PlacedIn(h1, n);
      hide Push, WellPlaced, MirrorBut, Attached, AttachedTo, Own, Tree;
      RenamedOwn(h, x, k, n);
      PushKeepsOwn(h1, x, n);
    }
  }

  lemma PlacedIn(h: Heap, n: JSonNode)
    requires Tree(h) && n in h
    ensures WellPlaced(h, n)
  {
  }

  /** When it is not refused: the parent's data hold x's data under the new name and nothing under the old
      one, and all its other values stay. */
  lemma RenameMovesData(h: Heap, x: JSonNode, k: string)
    requires x in h && Mirror(h) && h[x].parent != null && h[x].parent in h && k !in h[h[x].parent].data
    ensures
      var h', p := Rename(h, x, k), h[x].parent;
      && x in h' && p in h' && h'[x].data == h[x].data && k != h[x].name
      && h'[p].data == (h[p].data - {h[x].name})[k := Obj(h'[x].data)]
  {
    var p, h1 := h[x].parent, Renamed(h, x, k);
    RenamedIsTree(h, x, k);
    CopiedIn(h, p, x);
    TreeIsGrounded(h1);
    ParentDiffers(h, p, x);
    hide Tree, Attached, MirrorBut, Push, Grounded, SameShape;
    PushUnfolds(h1, x);
    PushKeepsShape(h1, x);
    PushKeepsShape(Store(h1, x), p);
    ShapeAt(h1, Push(h1, x), x);
    ShapeAt(h1, Store(h1, x), p);
    ShapeAt(Store(h1, x), Push(h1, x), p);
  }

  /** x has the new name, and every other node its old one; nobody moves. */
  lemma RenameNamesOne(h: Heap, x: JSonNode, k: string, n: JSonNode)
    requires x in h && n in h && Mirror(h) && h[x].parent != null && h[x].parent in h && k !in h[h[x].parent].data
    ensures
      var h' := Rename(h, x, k);
      && h'.Keys == h.Keys && h'[n].name == (if n == x then k else h[n].name)
      && h'[n].parent == h[n].parent && h'[n].kids == h[n].kids && h'[n].depth == h[n].depth
  {
    var h1 := Renamed(h, x, k);
    RenamedIsTree(h, x, k);
    TreeIsGrounded(h1);
    RenamedAt(h, x, k, n);
    hide Mirror, Tree, Attached, MirrorBut, Push, Grounded, SameShape, Renamed;
    PushKeepsShape(h1, x);
    ShapeKeys(h1, Push(h1, x));
    ShapeAt(h1, Push(h1, x), n);
  }

  lemma RenamedAt(h: Heap, x: JSonNode, k: string, n: JSonNode)
    requires x in h && n in h && h[x].parent != null && h[x].parent in h && h[x].parent != x
    ensures
      var h1 := Renamed(h, x, k);
      && h1.Keys == h.Keys && h1[n].name == (if n == x then k else h[n].name)
      && h1[n].parent == h[n].parent && h1[n].kids == h[n].kids && h1[n].depth == h[n].depth
  {
  }

  lemma ShapeKeys(h: Heap, h': Heap)
    requires SameShape(h, h')
    ensures h'.Keys == h.Keys
  {
  }

  lemma RenameRefused(h: Heap, x: JSonNode, k: string)
    requires x in h && Mirror(h) && (h[x].parent != null ==> h[x].parent in h && k in h[h[x].parent].data)
    ensures Rename(h, x, k) == h
  {
  }

  // ---------- runs ----------

  datatype Edit =
    | SetIt(x: JSonNode, k: string, v: Json)
    | RenameIt(x: JSonNode, k: string)
    | AddIt(x: JSonNode, node: JSonNode, sub: Heap)   // a new node with everything below it
    | RemoveIt(x: JSonNode, node: JSonNode)

  /** The edits the program makes: on nodes of the tree, values under keys that are no child's name,
      new subtrees under new names. */
  ghost predicate Allowed(h: Heap, e: Edit)
    requires Mirror(h)
  {
    e.x in h && WellPlaced(h, e.x) &&
    match e
    case SetIt(x, k, v) => !v.Obj? && !IsKidName(h, x, k)
    case RenameIt(_, _) => true
    case AddIt(x, c, sub) => Scion(h, x, c, sub) && !IsKidName(h, x, sub[c].name)
    case RemoveIt(x, c) => c in h[x].kids
  }

  /** A tree of new nodes with root c, in a steady state of its own, deep enough to hang below x. */
  ghost predicate Scion(h: Heap, x: JSonNode, c: JSonNode, sub: Heap)
    requires x in h
  {
    && c in sub && h.Keys !! sub.Keys && sub[c].depth == h[x].depth + 1
    && (forall n :: n in sub ==> (sub[n].parent == null <==> n == c))
    && Tree(sub) && Attached(sub) && MirrorBut(sub, c)
  }

  /** A new node without children is such a tree. */
  lemma LeafIsScion(h: Heap, x: JSonNode, c: JSonNode, name: string, data: Fields)
    requires x in h && c !in h
    ensures Scion(h, x, c, map[c := Rec(name, data, null, [], map[], h[x].depth + 1)])
  {
    var sub: Heap := map[c := Rec(name, data, null, [], map[], h[x].depth + 1)];
    assert WellPlaced(sub, c) && Mirrors(sub, c, c);
  }

  /** A root alone, with its data as its document, is a steady state to start from. */
  lemma RootAloneMirrors(r: JSonNode, name: string, data: Fields)
    ensures Mirror(map[r := Rec(name, data, null, [], data, 0)])
  {
    var h: Heap := map[r := Rec(name, data, null, [], data, 0)];
    assert WellPlaced(h, r) && Mirrors(h, r, null);
  }

  function Grafted(h: Heap, x: JSonNode, c: JSonNode, sub: Heap): Heap
    requires c in sub
  {
    h + sub[c := sub[c].(parent := x)]
  }

  /** A node of the old tree sees nothing of the new one. */
  lemma StockIsPlaced(h: Heap, x: JSonNode, c: JSonNode, sub: Heap, n: JSonNode)
    requires c in sub && h.Keys !! sub.Keys && n in h && WellPlaced(h, n) && Mirrors(h, n, null)
    ensures n in Grafted(h, x, c, sub) && Grafted(h, x, c, sub)[n] == h[n]
    ensures WellPlaced(Grafted(h, x, c, sub), n) && Mirrors(Grafted(h, x, c, sub), n, null) && c !in h[n].kids
  {
    var h1 := Grafted(h, x, c, sub);
    assert forall d :: d in h ==> d in h1 && h1[d] == h[d];
    forall d | d in h[n].kids
      ensures Copied(h1, n, d)
    {
      assert Copied(h, n, d);
    }
  }

  /** A node of the new tree keeps its children and their copies. */
  lemma ScionIsPlaced(h: Heap, x: JSonNode, c: JSonNode, sub: Heap, n: JSonNode)
    requires x in h && c in sub && h.Keys !! sub.Keys && n in sub && sub[c].depth == h[x].depth + 1
    requires WellPlaced(sub, n) && Mirrors(sub, n, c) && (sub[n].parent == null <==> n == c) && sub[c].parent == null
    ensures n in Grafted(h, x, c, sub)
    ensures WellPlaced(Grafted(h, x, c, sub), n) && Mirrors(Grafted(h, x, c, sub), n, null)
  {
    var h1 := Grafted(h, x, c, sub);
    assert forall d :: d in sub ==> d in h1 && h1[d] == if d == c then sub[d].(parent := x) else sub[d];
    assert x in h1 && h1[x] == h[x];
    assert c !in sub[n].kids;
    forall d | d in sub[n].kids
      ensures Copied(h1, n, d)
    {
      assert Copied(sub, n, d);
    }
  }

  lemma GraftedAt(h: Heap, x: JSonNode, c: JSonNode, sub: Heap)
    requires x in h && Tree(h) && MirrorBut(h, null) && Scion(h, x, c, sub)
    ensures
      var h1 := Grafted(h, x, c, sub);
      forall n :: n in h1 ==> WellPlaced(h1, n) && Mirrors(h1, n, null)
  {
    hide WellPlaced, Mirrors;
    var h1 := Grafted(h, x, c, sub);
    forall n | n in h1
      ensures WellPlaced(h1, n) && Mirrors(h1, n, null)
    {
      if n in h {
        StockIsPlaced(h, x, c, sub, n);
      } else {
        ScionIsPlaced(h, x, c, sub, n);
      }
    }
  }

  /** Everyone but c is listed by their parent. */
  lemma GraftIsListed(h: Heap, x: JSonNode, c: JSonNode, sub: Heap, n: JSonNode)
    requires x in h && Tree(h) && Attached(h) && Scion(h, x, c, sub)
    requires n in Grafted(h, x, c, sub) && n != c && Grafted(h, x, c, sub)[n].parent != null
    ensures
      var h1 := Grafted(h, x, c, sub);
      h1[n].parent in h1 && n in h1[h1[n].parent].kids
  {
    hide MirrorBut;
    if n in h {
      ParentIn(h, n);
    } else {
      ParentIn(sub, n);
    }
  }

  lemma GraftKeepsKidNames(h: Heap, x: JSonNode, c: JSonNode, sub: Heap, k: string)
    requires x in h && c in sub && h.Keys !! sub.Keys && WellPlaced(h, x) && WellPlaced(Grafted(h, x, c, sub), x)
    ensures IsKidName(Grafted(h, x, c, sub), x, k) <==> IsKidName(h, x, k)
  {
    KidsAreIn(h, x);
    hide WellPlaced;
    var h1 := Grafted(h, x, c, sub);
    assert forall d :: d in h ==> d in h1 && h1[d] == h[d];
  }

  lemma GraftIsJoining(h: Heap, x: JSonNode, c: JSonNode, sub: Heap)
    requires Mirror(h) && x in h && WellPlaced(h, x) && Scion(h, x, c, sub) && !IsKidName(h, x, sub[c].name)
    ensures
      var h1 := Grafted(h, x, c, sub);
      c in h1 && h1[c].name == sub[c].name && Joining(h1, x, c) && WellPlaced(h1, x) && !IsKidName(h1, x, h1[c].name)
  {
    hide WellPlaced, Mirrors, IsKidName;
    var h1 := Grafted(h, x, c, sub);
    GraftedAt(h, x, c, sub);
    StockIsPlaced(h, x, c, sub, x);
    GraftKeepsKidNames(h, x, c, sub, sub[c].name);
    forall n | n in h1 && n != c && h1[n].parent != null
      ensures h1[n].parent in h1 && n in h1[h1[n].parent].kids
    {
      GraftIsListed(h, x, c, sub, n);
    }
  }

  ghost function ApplyEdit(h: Heap, e: Edit): Heap
    requires Mirror(h) && Allowed(h, e)
  {
    match e
    case SetIt(x, k, v) => Put(h, x, k, v)
    case RenameIt(x, k) => Rename(h, x, k)
    case AddIt(x, c, sub) =>
      GraftIsJoining(h, x, c, sub);
      AddKid(Grafted(h, x, c, sub), x, c)
    case RemoveIt(x, c) => RemoveKid(h, x, c)
  }

  lemma EditMirrors(h: Heap, e: Edit)
    requires Mirror(h) && Allowed(h, e)
    ensures Mirror(ApplyEdit(h, e))
  {
    hide Mirror, Push, WellPlaced, IsKidName, RemoveKid, Rename, Put, AddKid;
    match e
    case SetIt(x, k, v) => PutMirrorsExactly(h, x, k, v);
    case RenameIt(x, k) => RenameMirrors(h, x, k);
    case AddIt(x, c, sub) =>
      GraftIsJoining(h, x, c, sub);
      AddKidMirrors(Grafted(h, x, c, sub), x, c);
    case RemoveIt(x, c) => RemoveKidMirrors(h, x, c);
  }

  ghost predicate AllowedRun(h: Heap, es: seq<Edit>)
    requires Mirror(h)
    decreases |es|
  {
    es == [] || (Allowed(h, es[0]) && (EditMirrors(h, es[0]); AllowedRun(ApplyEdit(h, es[0]), es[1..])))
  }

  ghost function RunEdits(h: Heap, es: seq<Edit>): Heap
    requires Mirror(h) && AllowedRun(h, es)
    decreases |es|
  {
    if es == [] then h
    else
      EditMirrors(h, es[0]);
      RunEdits(ApplyEdit(h, es[0]), es[1..])
  }

  /** After every run of edits, at any depth: each stored copy is right, up to the root document, and
      the document holds every node's data at the node's address. */
  lemma {:induction false} RunMirrors(h: Heap, es: seq<Edit>, n: JSonNode)
    requires Mirror(h) && AllowedRun(h, es) && n in RunEdits(h, es)
    ensures
      var h' := RunEdits(h, es);
      Mirror(h') && Resolve(h'[RootOf(h', n)].doc, PathOf(h', n)) == Some(h'[n].data)
    decreases |es|
  {
    hide ApplyEdit, Tree, Attached, MirrorBut, Resolve, PathOf, RootOf, Allowed;
    if es == [] {
      DocumentHoldsEveryNode(h, n);
    } else {
      EditMirrors(h, es[0]);
      RunMirrors(ApplyEdit(h, es[0]), es[1..], n);
    }
  }

  // ---------- addresses ----------

  /** The names from below the root down to n. */
  ghost function PathOf(h: Heap, n: JSonNode): seq<string>
    requires n in h && Tree(h)
    decreases h[n].depth
  {
    assert WellPlaced(h, n);
    if h[n].parent == null then [] else PathOf(h, h[n].parent) + [h[n].name]
  }

  ghost function RootOf(h: Heap, n: JSonNode): (r: JSonNode)
    requires n in h && Tree(h)
    ensures r in h && h[r].parent == null
    decreases h[n].depth
  {
    assert WellPlaced(h, n);
    if h[n].parent == null then n else RootOf(h, h[n].parent)
  }

  /** Following names through a document. */
  function Resolve(f: Fields, path: seq<string>): Option<Fields>
    decreases |path|
  {
    if path == [] then Some(f)
    else if path[0] in f && f[path[0]].Obj? then Resolve(f[path[0]].fields, path[1..])
    else None
  }

  lemma {:induction false} ResolveSnoc(f: Fields, path: seq<string>, k: string)
    requires Resolve(f, path).Some?
    requires k in Resolve(f, path).value && Resolve(f, path).value[k].Obj?
    ensures Resolve(f, path + [k]) == Some(Resolve(f, path).value[k].fields)
    decreases |path|
  {
    var all := path + [k];
    if path == [] {
      assert all[1..] == [];
    } else {
      assert all[1..] == path[1..] + [k] && all[0] == path[0];
      ResolveSnoc(f[path[0]].fields, path[1..], k);
    }
  }

  /** In the steady state the root document holds the data of every node at the node's address. */
  lemma {:induction false} DocumentHoldsEveryNode(h: Heap, n: JSonNode)
    requires Mirror(h) && n in h
    ensures Resolve(h[RootOf(h, n)].doc, PathOf(h, n)) == Some(h[n].data)
    decreases h[n].depth
  {
    assert WellPlaced(h, n) && Mirrors(h, n, null);
    var p := h[n].parent;
    if p != null {
      DocumentHoldsEveryNode(h, p);
      hide Resolve;
      assert Mirrors(h, p, null);
      assert Copied(h, p, n);
      ResolveSnoc(h[RootOf(h, p)].doc, PathOf(h, p), h[n].name);
    }
  }

  /** An address belongs to one node only. */
  lemma {:induction false} PathIsUnique(h: Heap, n: JSonNode, m: JSonNode)
    requires Tree(h) && Attached(h) && n in h && m in h
    requires RootOf(h, n) == RootOf(h, m) && PathOf(h, n) == PathOf(h, m)
    ensures n == m
    decreases h[n].depth
  {
    assert WellPlaced(h, n) && WellPlaced(h, m);
    var p, q := h[n].parent, h[m].parent;
    if p != null && q != null {
      var a, b := PathOf(h, p), PathOf(h, q);
      assert (a + [h[n].name])[..|a|] == a && (b + [h[m].name])[..|b|] == b;
      assert (a + [h[n].name])[|a|] == h[n].name && (b + [h[m].name])[|b|] == h[m].name;
      PathIsUnique(h, p, q);
      assert WellPlaced(h, p);
    }
  }

  /** The node with that path has, at every depth, an ancestor with that part of the path. */
  lemma {:induction false} PathGoesThrough(h: Heap, m: JSonNode, i: nat)
    requires Tree(h) && Attached(h) && m in h && i < |PathOf(h, m)|
    ensures exists a :: a in h && RootOf(h, a) == RootOf(h, m) && PathOf(h, a) == PathOf(h, m)[..i]
                        && WellPlaced(h, a) && IsKidName(h, a, PathOf(h, m)[i])
    decreases h[m].depth
  {
    assert WellPlaced(h, m);
    var p := h[m].parent;
    var path := PathOf(h, m);
    assert path[..|path| - 1] == PathOf(h, p);
    if i == |path| - 1 {
      assert WellPlaced(h, p) && m in h[p].kids;
      assert IsKidName(h, p, path[i]);
    } else {
      PathGoesThrough(h, p, i);
      assert path[..i] == PathOf(h, p)[..i];
    }
  }

  lemma ParentIn(h: Heap, n: JSonNode)
    requires Tree(h) && n in h
    ensures
      var p := h[n].parent;
      if p == null then PathOf(h, n) == []
      else p in h && p != n && h[p].depth < h[n].depth && PathOf(h, n) == PathOf(h, p) + [h[n].name]
  {
    assert WellPlaced(h, n);
  }

  // ---------- addresses as text ----------

  /** The names joined by dots; a root has the empty address. */
  function Dotted(path: seq<string>): string { if path == [] then "" else Join(path, '.') }

  /** r is what nodeByAddress looks for below root. */
  ghost predicate IsAt(h: Heap, root: JSonNode, address: string, r: JSonNode)
    requires Tree(h)
  {
    if address == "" then r == root
    else r in h && RootOf(h, r) == root && PathOf(h, r) == Cut(address, '.')
  }

  lemma DottedIsEmptyExactly(path: seq<string>)
    ensures Dotted(path) == "" <==> path == [] || path == [""]
  {
    if |path| > 1 {
      assert '.' in path[0] + ['.'] + Join(path[1..], '.');
    }
  }

  /** A node is found again under its own address exactly when it is a root, or no name on its path
      holds a dot and it is not a child of the root with an empty name. */
  lemma FoundAgainExactly(h: Heap, n: JSonNode)
    requires Tree(h) && n in h
    ensures
      var path := PathOf(h, n);
      IsAt(h, RootOf(h, n), Dotted(path), n) <==> path == [] || (AllFree(path, '.') && path != [""])
  {
    hide Tree, Cut, Join;
    var path := PathOf(h, n);
    ParentIn(h, n);
    DottedIsEmptyExactly(path);
    if path == [] {
      RootIsItself(h, n);
    } else if path == [""] {
      NotARoot(h, n);
    } else {
      JoinIsCutExactly(path, '.');
    }
  }

  lemma RootIsItself(h: Heap, n: JSonNode)
    requires Tree(h) && n in h && PathOf(h, n) == []
    ensures RootOf(h, n) == n
  {
    hide Tree;
    ParentIn(h, n);
  }

  lemma NotARoot(h: Heap, n: JSonNode)
    requires Tree(h) && n in h && PathOf(h, n) != []
    ensures RootOf(h, n) != n
  {
    hide Tree;
    ParentIn(h, n);
  }

  lemma {:induction false} PathKept(h: Heap, h': Heap, n: JSonNode, d: nat)
    requires Tree(h) && Tree(h') && h.Keys == h'.Keys && n in h && h[n].depth < d
    requires forall m :: m in h ==> h'[m].parent == h[m].parent && (h[m].depth < d ==> h'[m].name == h[m].name)
    ensures PathOf(h', n) == PathOf(h, n)
    decreases h[n].depth
  {
    hide Tree;
    ParentIn(h, n);
    ParentIn(h', n);
    if h[n].parent != null {
      PathKept(h, h', h[n].parent, d);
    }
  }

  /** The path of a renamed node is that of its parent, as it was, and the new name. */
  lemma RenameMovesPath(h: Heap, x: JSonNode, k: string)
    requires x in h && Mirror(h) && h[x].parent != null && h[x].parent in h && k !in h[h[x].parent].data
    ensures Mirror(Rename(h, x, k)) && x in Rename(h, x, k)
    ensures PathOf(Rename(h, x, k), x) == PathOf(h, h[x].parent) + [k]
  {
    var h', p := Rename(h, x, k), h[x].parent;
    RenameMirrors(h, x, k);
    ParentDiffers(h, p, x);
    hide Tree, Attached, MirrorBut, Rename, PathOf;
    forall m | m in h
      ensures h'.Keys == h.Keys && h'[m].parent == h[m].parent && h'[m].name == if m == x then k else h[m].name
    {
      RenameNamesOne(h, x, k, m);
    }
    PathKept(h, h', p, h[x].depth);
    ParentIn(h', x);
  }

  lemma RenamePushes(h: Heap, x: JSonNode, k: string)
    requires x in h && Mirror(h) && h[x].parent != null && h[x].parent in h && k !in h[h[x].parent].data
    ensures h[x].parent != x && Grounded(Renamed(h, x, k)) && Rename(h, x, k) == Push(Renamed(h, x, k), x)
  {
    RenamedIsTree(h, x, k);
    TreeIsGrounded(Renamed(h, x, k));
    hide Tree, Attached, MirrorBut, Push;
  }

  /** x has the name k now, its parent holds its data there and nothing under the old name, and its path
      ends in k. */
  ghost predicate Renames(h: Heap, h': Heap, x: JSonNode, k: string) {
    && Tree(h) && Tree(h') && x in h && h'.Keys == h.Keys
    && h[x].parent != null && h[x].parent in h && h[x].parent != x && h'[x].parent == h[x].parent
    && h'[x].name == k && h'[x].data == h[x].data && k != h[x].name
    && h'[h[x].parent].data == (h[h[x].parent].data - {h[x].name})[k := Obj(h[x].data)]
    && PathOf(h', x) == PathOf(h, h[x].parent) + [k]
  }

  lemma RenameIsDone(h: Heap, x: JSonNode, k: string)
    requires x in h && Mirror(h) && h[x].parent != null && h[x].parent in h && k !in h[h[x].parent].data
    ensures h[x].parent != x && Grounded(Renamed(h, x, k)) && Rename(h, x, k) == Push(Renamed(h, x, k), x)
    ensures Renames(h, Rename(h, x, k), x, k)
  {
    hide Tree, Attached, MirrorBut, Push, Renamed, PathOf, Rename, Grounded;
    RenamePushes(h, x, k);
    RenameMovesData(h, x, k);
    RenameNamesOne(h, x, k, x);
    RenameMovesPath(h, x, k);
    RenameMirrors(h, x, k);
  }

  // ---------- the nodes as objects ----------

  lemma PruneIsView(S: set<JSonNode>, c: JSonNode)
    requires Tree(View(S))
    ensures
      var left := Prune(View(S), c);
      left.Keys <= S && View(left.Keys) == left
  {
    hide Tree;
  }

  ghost function View(S: set<JSonNode>): Heap
    reads S
  {
    map n | n in S :: n.Now()
  }

  datatype SetError = SameValue | NoError | WrongArg

  // ---------- values given as text ----------

  function Lower(c: char): char { if 'A' <= c <= 'Z' then (c as int + 32) as char else c }

  /** QString::compare ignoring case: non-zero for different texts. */
  predicate Differs(a: string, b: string) {
    |a| != |b| || exists i :: 0 <= i < |a| && Lower(a[i]) != Lower(b[i])
  }

  /** The same letter, small or capital. */
  predicate SameLetter(a: char, b: char) {
    a == b || ('A' <= a <= 'Z' && b as int == a as int + 32) || ('A' <= b <= 'Z' && a as int == b as int + 32)
  }

  /** Texts differ if and only if they are not the same letter by letter, up to case. */
  lemma DiffersUpToCase(a: string, b: string)
    ensures !Differs(a, b) <==> |a| == |b| && forall i :: 0 <= i < |a| ==> SameLetter(a[i], b[i])
  {
    forall c: char, d: char
      ensures Lower(c) == Lower(d) <==> SameLetter(c, d)
    {
    }
  }

  /** So "TRUE" is taken for "true", and stored as false. */
  lemma CapitalsAreStoredToo()
    ensures TruthStored("TRUE") == TruthStored("True") == TruthStored("true") == Some(false)
    ensures TruthStored("FALSE") == TruthStored("yes") == TruthStored("1") == Some(true)
  {
    TruthIsInverted("TRUE");
    TruthIsInverted("True");
    TruthIsInverted("true");
    assert Lower("FALSE"[0]) != Lower("true"[0]);
    TruthIsInverted("FALSE");
    TruthIsInverted("yes");
    assert Lower("1"[0]) != Lower("true"[0]);
    TruthIsInverted("1");
  }

  /** The tests of setBool as they stand: compare is taken for a test of equality. */
  function TruthStored(text: string): Option<bool> {
    if Differs(text, "true") || text == "1" then Some(true)
    else if Differs(text, "false") || text == "0" then Some(false)
    else None
  }

  /** What the two names and the two digits stand for. */
  function TruthMeant(text: string): Option<bool> {
    if !Differs(text, "true") || text == "1" then Some(true)
    else if !Differs(text, "false") || text == "0" then Some(false)
    else None
  }

  /** Every text is accepted, "true" is stored as false and everything else as true; so the text's own
      meaning is stored exactly for "1". */
  lemma TruthIsInverted(text: string)
    ensures TruthStored(text) == Some(Differs(text, "true"))
    ensures TruthStored(text) == TruthMeant(text) <==> text == "1"
  {
    assert |"true"| == 4 && |"false"| == 5;
  }

  class JSonNode {
    var name: string
    var jsonData: Fields
    var parent: JSonNode?
    var subnodes: seq<JSonNode>
    var doc: Fields          // _jsonDoc, for the root
    ghost var depth: nat

    ghost function Now(): Rec
      reads this
    {
      Rec(name, jsonData, parent, subnodes, doc, depth)
    }

    constructor (name: string, parent: JSonNode?)
      ensures this.name == name && this.parent == parent && jsonData == map[] && subnodes == [] && doc == map[]
      ensures parent != null ==> depth == parent.depth + 1
    {
      this.name, this.parent, jsonData, subnodes, doc := name, parent, map[], [], map[];
      depth := if parent == null then 0 else parent.depth + 1;
    }

    /** updateParentJSon of nodes and, at the root, of the model */
    method UpdateParentJson(ghost S: set<JSonNode>)
      requires this in S && Grounded(View(S))
      modifies S`jsonData, S`doc
      ensures View(S) == Push(old(View(S)), this)
      decreases depth
    {
      hide Grounded, Push, SameShape;
      ghost var h := View(S);
      if parent == null {
        PushAtRoot(h, this);
        doc := jsonData;
        assert View(S) == SetDoc(h, this);
      } else {
        PushUnfolds(h, this);
        parent.jsonData := parent.jsonData[name := Obj(jsonData)];
        assert View(S) == Store(h, this);
        parent.UpdateParentJson(S);
      }
    }

    /** setString, setNumber, setBool */
    method SetValue(ghost S: set<JSonNode>, k: string, v: Json) returns (r: SetError)
      requires this in S && Tree(View(S)) && (v.Str? || v.Num? || v.Bool?)
      modifies S`jsonData, S`doc
      ensures r == if k in old(jsonData) && old(jsonData)[k] == v then SameValue else NoError
      ensures View(S) == if r.SameValue? then old(View(S)) else Put(old(View(S)), this, k, v)
    {
      hide Tree, Push;
      if k in jsonData && jsonData[k] == v {
        return SameValue;
      }
      ghost var h := View(S);
      WithDataKeepsShape(h, this, jsonData[k := v]);
      jsonData := jsonData[k := v];
      assert View(S) == WithData(h, this, h[this].data[k := v]);
      TreeIsGrounded(View(S));
      UpdateParentJson(S);
      return NoError;
    }

    /** setBool from text */
    method SetTruth(ghost S: set<JSonNode>, k: string, text: string) returns (r: SetError)
      requires this in S && Tree(View(S))
      modifies S`jsonData, S`doc
      ensures var v := Bool(Differs(text, "true"));
              && r == (if k in old(jsonData) && old(jsonData)[k] == v then SameValue else NoError)
              && View(S) == if r.SameValue? then old(View(S)) else Put(old(View(S)), this, k, v)
    {
      hide Tree, Put, Differs;
      TruthIsInverted(text);
      var v := TruthStored(text);
      if v.None? {
        assert false;
      }
      r := SetValue(S, k, Bool(v.value));
    }

    /** setNumber from text; what QString::toDouble makes of the text is given. */
    method SetNumberFrom(ghost S: set<JSonNode>, k: string, parsed: Option<real>) returns (r: SetError)
      requires this in S && Tree(View(S))
      modifies S`jsonData, S`doc
      ensures r.WrongArg? <==> parsed.None?
      ensures parsed.Some? ==> (r.SameValue? <==> k in old(jsonData) && old(jsonData)[k] == Num(parsed.value))
      ensures View(S) == if r.NoError? then Put(old(View(S)), this, k, Num(parsed.value)) else old(View(S))
    {
      hide Tree, Put;
      if parsed.None? {
        return WrongArg;
      }
      r := SetValue(S, k, Num(parsed.value));
    }

    method AddSubNode(ghost S: set<JSonNode>, node: JSonNode)
      requires Joining(View(S), this, node)
      modifies S`jsonData, S`doc, this`subnodes
      ensures View(S) == AddKid(old(View(S)), this, node)
    {
      hide Tree, Push, MirrorBut, Grounded, WellPlaced;
      ghost var h := View(S);
      ListedIsGrounded(h, this, node);
      subnodes := subnodes + [node];
      jsonData := jsonData[node.name := Obj(node.jsonData)];
      assert View(S) == Listed(h, this, node);
      UpdateParentJson(S);
    }

    method RemoveSubNode(ghost S: set<JSonNode>, node: JSonNode)
      requires this in S && Mirror(View(S)) && node in subnodes
      modifies S`jsonData, S`doc, this`subnodes
      ensures
        var left := RemoveKid(old(View(S)), this, node);
        left.Keys <= S && View(left.Keys) == left
    {
      hide Tree, Push, MirrorBut, Attached, WellPlaced, Prune, Without, AttachedTo, SameShape, SameBelow;
      ghost var h := View(S);
      KidsParent(h, this, node);
      UnlistedIsTree(h, this, node);
      jsonData := jsonData - {node.name};
      subnodes := Without(subnodes, node);
      assert View(S) == Unlisted(h, this, node);
      TreeIsGrounded(Unlisted(h, this, node));
      UpdateParentJson(S);
      PushKeepsShape(Unlisted(h, this, node), this);
      ShapeKept(Unlisted(h, this, node), View(S));
      PruneIsView(S, node);
    }

    /** The same on the objects. */
    static lemma RenameIsSeen(S: set<JSonNode>, h: Heap, x: JSonNode, k: string)
      requires Renames(h, View(S), x, k)
      ensures x in S && x.parent != null && x.name == k && x.jsonData == h[x].data && k != h[x].name
      ensures x.parent.jsonData == (h[x.parent].data - {h[x].name})[k := Obj(x.jsonData)]
    {
      hide Tree, PathOf;
      assert View(S)[x] == x.Now();
      assert View(S)[x.parent] == x.parent.Now();
    }

    method RenameTo(ghost S: set<JSonNode>, k: string) returns (ok: bool)
      requires this in S && Mirror(View(S))
      modifies S`jsonData, S`doc, this`name
      ensures ok <==> parent != null && k !in old(parent.jsonData)
      ensures View(S) == Rename(old(View(S)), this, k)
      ensures !ok ==> View(S) == old(View(S))
      ensures ok ==> name == k && jsonData == old(jsonData)
      ensures ok ==> parent.jsonData == (old(parent.jsonData) - {old(name)})[k := Obj(jsonData)] && k != old(name)
    {
      hide Tree, Push, MirrorBut, Attached, WellPlaced, PathOf, Rename, Renames, Grounded;
      ghost var h := View(S);
      ParentIn(h, this);
      if parent == null {
        RenameRefused(h, this, k);
        return false;
      }
      if k in parent.jsonData {
        RenameRefused(h, this, k);
        return false;
      }
      RenamedIsTree(h, this, k);
      parent.jsonData := parent.jsonData - {name};
      name := k;
      assert View(S) == Renamed(h, this, k);
      TreeIsGrounded(Renamed(h, this, k));
      UpdateParentJson(S);
      RenameIsDone(h, this, k);
      RenameIsSeen(S, h, this, k);
      ok := true;
    }

    /** address */
    method Address(ghost S: set<JSonNode>) returns (address: string)
      requires this in S && Tree(View(S))
      ensures address == Dotted(PathOf(View(S), this))
    {
      hide Tree, PathOf;
      ghost var h := View(S);
      ParentIn(h, this);
      if parent == null {
        return "";
      }
      address := name;
      ghost var path := [name];
      var n: JSonNode := parent;
      while n.parent != null
        invariant n in S && PathOf(h, this) == PathOf(h, n) + path
        invariant path != [] && address == Join(path, '.')
        decreases n.depth
      {
        ParentIn(h, n);
        address := n.name + "." + address;
        assert ([n.name] + path)[1..] == path;
        path := [n.name] + path;
        n := n.parent;
      }
      ParentIn(h, n);
      assert [] + path == path;
    }

    method NodeAt(k: string) returns (r: JSonNode?)
      ensures r == null ==> forall c :: c in subnodes ==> c.name != k
      ensures r != null ==> r in subnodes && r.name == k
    {
      for i := 0 to |subnodes|
        invariant forall j :: 0 <= j < i ==> subnodes[j].name != k
      {
        if subnodes[i].name == k {
          return subnodes[i];
        }
      }
      r := null;
    }

    /** nodeByAddress: it finds the one node with that address, and fails only if there is none. */
    method NodeByAddress(ghost S: set<JSonNode>, address: string) returns (r: JSonNode?)
      requires this in S && parent == null && Tree(View(S)) && Attached(View(S))
      ensures r != null ==> IsAt(View(S), this, address, r)
      ensures forall m: JSonNode :: IsAt(View(S), this, address, m) ==> r == m
    {
      hide Tree, Attached, Cut;
      if address == "" {
        return this;
      }
      r := NodeByPath(S, Cut(address, '.'));
    }

    /** address, then nodeByAddress */
    method FindAgain(ghost S: set<JSonNode>, root: JSonNode) returns (r: JSonNode?)
      requires this in S && root in S && Tree(View(S)) && Attached(View(S)) && RootOf(View(S), this) == root
      ensures
        var path := PathOf(View(S), this);
        r == this <==> path == [] || (AllFree(path, '.') && path != [""])
    {
      hide Tree, Attached, IsAt;
      var address := Address(S);
      r := root.NodeByAddress(S, address);
      FoundAgainExactly(View(S), this);
    }

    /** Its loop over the names. */
    method NodeByPath(ghost S: set<JSonNode>, path: seq<string>) returns (r: JSonNode?)
      requires this in S && parent == null && Tree(View(S)) && Attached(View(S))
      ensures r != null ==> r in S && RootOf(View(S), r) == this && PathOf(View(S), r) == path
      ensures forall m :: m in S && RootOf(View(S), m) == this && PathOf(View(S), m) == path ==> r == m
    {
      ghost var h := View(S);
      hide Tree, Attached;
      var n := this;
      for i := 0 to |path|
        invariant n in S && RootOf(h, n) == this && PathOf(h, n) == path[..i]
      {
        PlacedIn(h, n);
        var c := n.NodeAt(path[i]);
        if c == null {
          NoSuchPath(h, n, path, i);
          return null;
        }
        assert path[..i + 1] == path[..i] + [path[i]];
        n := c;
      }
      assert path[..|path|] == path;
      r := n;
      forall m | m in S && RootOf(h, m) == this && PathOf(h, m) == path
        ensures r == m
      {
        PathIsUnique(h, r, m);
      }
    }
  }

  lemma NoSuchPath(h: Heap, n: JSonNode, path: seq<string>, i: nat)
    requires Tree(h) && Attached(h) && n in h && i < |path| && PathOf(h, n) == path[..i]
    requires WellPlaced(h, n) && !IsKidName(h, n, path[i])
    ensures forall m :: m in h && RootOf(h, m) == RootOf(h, n) ==> PathOf(h, m) != path
  {
    forall m | m in h && RootOf(h, m) == RootOf(h, n)
      ensures PathOf(h, m) != path
    {
      if PathOf(h, m) == path {
        PathGoesThrough(h, m, i);
        var a :| a in h && RootOf(h, a) == RootOf(h, m) && PathOf(h, a) == path[..i]
                 && WellPlaced(h, a) && IsKidName(h, a, path[i]);
        PathIsUnique(h, a, n);
      }
    }
  }
}
