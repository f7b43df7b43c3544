/** Nested outputs of a break: tensors, plain values, tuples, and objects or dicts; and the copy of a fresh
    output into the captured one, which replay repeats on the same captured object. */
module OutputTrees {
  import opened Wrappers

  /** A tree of T at its tensor leaves: cells for the captured object, contents for values. Records are
      objects or dicts. */
  datatype Tree<T> =
    | Tensor(at: T)
    | Plain(value: int)
    | Tuple(items: seq<Tree<T>>)
    | Record(isDict: bool, fields: map<string, Tree<T>>)

  /** A tensor of the captured object: at a captured address, or in storage of its own since a replay
      rebound the field that holds it. */
  datatype Cell = Captured(address: nat) | Detached(contents: int)

  type Memory = map<nat, int>

  function Read(m: Memory, a: nat): int {
    if a in m then m[a] else 0
  }

  function Held(m: Memory, c: Cell): int {
    match c
    case Captured(a) => Read(m, a)
    case Detached(v) => v
  }

  /** What the tensors of a tree hold. */
  function Contents(m: Memory, t: Tree<Cell>): (v: Tree<int>) {
    match t
    case Tensor(c) => Tensor(Held(m, c))
    case Plain(v) => Plain(v)
    case Tuple(items) => Tuple(seq(|items|, i requires 0 <= i < |items| => Contents(m, items[i])))
    case Record(d, fields) => Record(d, map k | k in fields :: Contents(m, fields[k]))
  }

  /** Captured addresses. */
  ghost function Addrs(t: Tree<Cell>): set<nat> {
    match t
    case Tensor(c) => if c.Captured? then {c.address} else {}
    case Plain(_) => {}
    case Tuple(items) => set i, a | 0 <= i < |items| && a in Addrs(items[i]) :: a
    case Record(_, fields) => set k, a | k in fields && a in Addrs(fields[k]) :: a
  }

  /** No address occurs twice. */
  ghost predicate Distinct(t: Tree<Cell>) {
    match t
    case Tensor(_) => true
    case Plain(_) => true
    case Tuple(items) =>
      (forall i :: 0 <= i < |items| ==> Distinct(items[i])) &&
      forall i, j :: 0 <= i < j < |items| ==> Addrs(items[i]) !! Addrs(items[j])
    case Record(_, fields) =>
      (forall k :: k in fields ==> Distinct(fields[k])) &&
      forall k, k' :: k in fields && k' in fields && k != k' ==> Addrs(fields[k]) !! Addrs(fields[k'])
  }

  ghost predicate AgreeOn(m: Memory, m': Memory, s: set<nat>) {
    forall a :: a in s ==> Read(m, a) == Read(m', a)
  }

  // ---- The copy ----------------------------------------------------------------------------

  predicate SameKind(dst: Tree<Cell>, src: Tree<int>) {
    dst.Record? && src.Record? && dst.isDict == src.isDict
  }

  predicate SameLength(dst: Tree<Cell>, src: Tree<int>) {
    dst.Tuple? && src.Tuple? && |dst.items| == |src.items|
  }

  /** Field k is a captured tensor, and a tensor in the fresh output. */
  predicate IsCopied(dst: Tree<Cell>, src: Tree<int>, k: string)
    requires dst.Record? && src.Record?
  {
    k in src.fields && k in dst.fields && dst.fields[k].Tensor? && dst.fields[k].at.Captured? && src.fields[k].Tensor?
  }

  /** Fields that are tensors on both sides are copied; this is what lands at captured addresses. */
  function CopiedFields(dst: Tree<Cell>, src: Tree<int>): (w: Memory)
    requires SameKind(dst, src) && Distinct(dst)
  {
    map k | k in src.fields && IsCopied(dst, src, k) :: dst.fields[k].at.address := src.fields[k].at
  }

  /** Memory after copying fresh contents src into the captured object dst; where the structures differ
      nothing is copied. */
  function CopyOutput(m: Memory, dst: Tree<Cell>, src: Tree<int>): Memory
    requires Distinct(dst)
    decreases dst, 0
  {
    if dst.Tensor? && src.Tensor? then (if dst.at.Captured? then m[dst.at.address := src.at] else m)
    else if SameLength(dst, src) then CopyItems(m, dst, src, |dst.items|)
    else if SameKind(dst, src) then m + CopiedFields(dst, src)
    else m
  }

  function CopyItems(m: Memory, dst: Tree<Cell>, src: Tree<int>, upTo: nat): Memory
    requires SameLength(dst, src) && upTo <= |dst.items| && Distinct(dst)
    decreases dst, 0, upTo
  {
    if upTo == 0 then m
    else CopyOutput(CopyItems(m, dst, src, upTo - 1), dst.items[upTo - 1], src.items[upTo - 1])
  }

  /** A fresh value as it sits in the captured object once a field has been rebound to it. */
  function AsDetached(src: Tree<int>): Tree<Cell> {
    match src
    case Tensor(v) => Tensor(Detached(v))
    case Plain(v) => Plain(v)
    case Tuple(items) => Tuple(seq(|items|, i requires 0 <= i < |items| => AsDetached(items[i])))
    case Record(d, fields) => Record(d, map k | k in fields :: AsDetached(fields[k]))
  }

  /** The captured object after the copy: a record's fields that are not tensors on both sides are rebound. */
  function CopyTree(dst: Tree<Cell>, src: Tree<int>): Tree<Cell>
    decreases dst
  {
    if dst.Tensor? && src.Tensor? then (if dst.at.Captured? then dst else Tensor(Detached(src.at)))
    else if SameLength(dst, src) then
      Tuple(seq(|dst.items|, i requires 0 <= i < |dst.items| => CopyTree(dst.items[i], src.items[i])))
    else if SameKind(dst, src) then
      Record(dst.isDict, map k | k in dst.fields.Keys + src.fields.Keys :: FieldAfter(dst, src, k))
    else dst
  }

  function FieldAfter(dst: Tree<Cell>, src: Tree<int>, k: string): Tree<Cell>
    requires SameKind(dst, src) && (k in dst.fields || k in src.fields)
  {
    if k !in src.fields then dst.fields[k]
    else if IsCopied(dst, src, k) then dst.fields[k]
    else AsDetached(src.fields[k])
  }

  ghost predicate FieldLands(dst: Tree<Cell>, src: Tree<int>, k: string)
    requires SameKind(dst, src) && Distinct(dst) && IsCopied(dst, src, k)
  {
    var a := dst.fields[k].at.address;
    a in CopiedFields(dst, src) && CopiedFields(dst, src)[a] == src.fields[k].at
  }

  lemma CopiedAreFields(dst: Tree<Cell>, src: Tree<int>)
    requires SameKind(dst, src) && Distinct(dst)
    ensures forall a :: a in CopiedFields(dst, src) ==> a in Addrs(dst)
    ensures forall k :: k in src.fields && IsCopied(dst, src, k) ==> FieldLands(dst, src, k)
  {
    forall k | k in dst.fields && dst.fields[k].Tensor? && dst.fields[k].at.Captured?
      ensures dst.fields[k].at.address in Addrs(dst)
    {
      assert dst.fields[k].at.address in Addrs(dst.fields[k]);
    }
  }

  /** The copy writes captured addresses only, and what it writes depends on their memory only. */
  lemma {:induction false} CopyIsLocal(m: Memory, m': Memory, dst: Tree<Cell>, src: Tree<int>)
    requires Distinct(dst)
    ensures forall a :: a !in Addrs(dst) ==> Read(CopyOutput(m, dst, src), a) == Read(m, a)
    ensures AgreeOn(m, m', Addrs(dst)) ==> AgreeOn(CopyOutput(m, dst, src), CopyOutput(m', dst, src), Addrs(dst))
    decreases dst, 0
  {
    hide CopyItems, CopiedFields, Distinct;
    if SameLength(dst, src) {
      ItemsAreLocal(m, m', dst, src, |dst.items|);
    } else if SameKind(dst, src) {
      CopiedAreFields(dst, src);
      MergeIsLocal(m, m', CopiedFields(dst, src), Addrs(dst));
    }
  }

  lemma MergeIsLocal(m: Memory, m': Memory, w: Memory, s: set<nat>)
    requires forall a :: a in w ==> a in s
    ensures forall a :: a !in s ==> Read(m + w, a) == Read(m, a)
    ensures AgreeOn(m, m', s) ==> AgreeOn(m + w, m' + w, s)
  {
  }

  lemma {:induction false} ItemsAreLocal(m: Memory, m': Memory, dst: Tree<Cell>, src: Tree<int>, upTo: nat)
    requires SameLength(dst, src) && upTo <= |dst.items| && Distinct(dst)
    ensures forall a :: (forall i :: 0 <= i < upTo ==> a !in Addrs(dst.items[i])) ==>
      Read(CopyItems(m, dst, src, upTo), a) == Read(m, a)
    ensures AgreeOn(m, m', Addrs(dst)) ==>
      AgreeOn(CopyItems(m, dst, src, upTo), CopyItems(m', dst, src, upTo), Addrs(dst))
    decreases dst, 0, upTo
  {
    if upTo > 0 {
      ItemsAreLocal(m, m', dst, src, upTo - 1);
      var n, n' := CopyItems(m, dst, src, upTo - 1), CopyItems(m', dst, src, upTo - 1);
      var d, v := dst.items[upTo - 1], src.items[upTo - 1];
      CopyIsLocal(n, n, d, v);
      CopyIsLocal(n', n, d, v);
      CopyIsLocal(n, n', d, v);
      assert Addrs(d) <= Addrs(dst);
    }
  }

  lemma {:induction false} ContentsFrame(m: Memory, m': Memory, t: Tree<Cell>)
    requires AgreeOn(m, m', Addrs(t))
    ensures Contents(m, t) == Contents(m', t)
  {
    match t
    case Tensor(_) =>
    case Plain(_) =>
    case Tuple(items) =>
      forall i | 0 <= i < |items| ensures Contents(m, items[i]) == Contents(m', items[i]) {
        assert Addrs(items[i]) <= Addrs(t);
        ContentsFrame(m, m', items[i]);
      }
    case Record(_, fields) =>
      forall k | k in fields ensures Contents(m, fields[k]) == Contents(m', fields[k]) {
        assert Addrs(fields[k]) <= Addrs(t);
        ContentsFrame(m, m', fields[k]);
      }
  }

  /** Contents show every captured address. */
  lemma {:induction false} ContentsShow(m: Memory, m': Memory, t: Tree<Cell>)
    requires Contents(m, t) == Contents(m', t)
    ensures AgreeOn(m, m', Addrs(t))
  {
    match t
    case Tensor(_) =>
    case Plain(_) =>
    case Tuple(items) =>
      forall i | 0 <= i < |items| ensures AgreeOn(m, m', Addrs(items[i])) {
        assert Contents(m, t).items[i] == Contents(m, items[i]) && Contents(m', t).items[i] == Contents(m', items[i]);
        ContentsShow(m, m', items[i]);
      }
    case Record(_, fields) =>
      forall k | k in fields ensures AgreeOn(m, m', Addrs(fields[k])) {
        assert Contents(m, t).fields[k] == Contents(m, fields[k]);
        assert Contents(m', t).fields[k] == Contents(m', fields[k]);
        ContentsShow(m, m', fields[k]);
      }
  }

  /** Rebinding only ever loses captured addresses. */
  lemma {:induction false} DetachedHasNone(src: Tree<int>)
    ensures Addrs(AsDetached(src)) == {} && Distinct(AsDetached(src))
  {
    match src
    case Tensor(_) =>
    case Plain(_) =>
    case Tuple(items) =>
      forall i | 0 <= i < |items| ensures Addrs(AsDetached(items[i])) == {} && Distinct(AsDetached(items[i])) {
        DetachedHasNone(items[i]);
      }
    case Record(_, fields) =>
      forall k | k in fields ensures Addrs(AsDetached(fields[k])) == {} && Distinct(AsDetached(fields[k])) {
        DetachedHasNone(fields[k]);
      }
  }

  lemma FieldAfterKeeps(dst: Tree<Cell>, src: Tree<int>, k: string)
    requires SameKind(dst, src) && (k in dst.fields || k in src.fields) && Distinct(dst)
    ensures Distinct(FieldAfter(dst, src, k))
    ensures Addrs(FieldAfter(dst, src, k)) <= if k in dst.fields then Addrs(dst.fields[k]) else {}
  {
    hide Addrs;
    if k in src.fields {
      DetachedHasNone(src.fields[k]);
    }
  }

  lemma {:induction false} CopyTreeKeeps(dst: Tree<Cell>, src: Tree<int>)
    requires Distinct(dst)
    ensures Distinct(CopyTree(dst, src)) && Addrs(CopyTree(dst, src)) <= Addrs(dst)
  {
    if SameLength(dst, src) {
      forall i | 0 <= i < |dst.items|
        ensures Distinct(CopyTree(dst.items[i], src.items[i])) &&
          Addrs(CopyTree(dst.items[i], src.items[i])) <= Addrs(dst.items[i]) <= Addrs(dst)
      {
        CopyTreeKeeps(dst.items[i], src.items[i]);
      }
    } else if SameKind(dst, src) {
      forall k | k in dst.fields.Keys + src.fields.Keys
        ensures Distinct(FieldAfter(dst, src, k)) && Addrs(FieldAfter(dst, src, k)) <= Addrs(dst)
        ensures Addrs(FieldAfter(dst, src, k)) <= if k in dst.fields then Addrs(dst.fields[k]) else {}
      {
        FieldAfterKeeps(dst, src, k);
      }
    }
  }

  // ---- Which captured tensors an output reaches --------------------------------------------

  datatype PathStep = Item(index: nat) | Field(key: string)

  type Path = seq<PathStep>

  /** The tensor at path p of the captured object sits at captured address a. */
  ghost predicate LeafAt(t: Tree<Cell>, p: Path, a: nat)
    decreases |p|
  {
    if p == [] then t == Tensor(Captured(a))
    else
      match p[0]
      case Item(i) => t.Tuple? && i < |t.items| && LeafAt(t.items[i], p[1..], a)
      case Field(k) => t.Record? && k in t.fields && LeafAt(t.fields[k], p[1..], a)
  }

  /** The value of the tensor at path p of a fresh output, if there is one. */
  function TensorAt(v: Tree<int>, p: Path): (r: Option<int>)
    decreases |p|
  {
    if p == [] then (if v.Tensor? then Some(v.at) else None)
    else
      match p[0]
      case Item(i) => if v.Tuple? && i < |v.items| then TensorAt(v.items[i], p[1..]) else None
      case Field(k) => if v.Record? && k in v.fields then TensorAt(v.fields[k], p[1..]) else None
  }

  /** Along p the output has the captured tuple lengths down to a tensor, or to a record of the captured kind
      with a tensor as the field that ends the path. */
  predicate Copies(c: Tree<Cell>, v: Tree<int>, p: Path)
    decreases |p|
  {
    if p == [] then v.Tensor?
    else
      match p[0]
      case Item(i) => SameLength(c, v) && i < |c.items| && Copies(c.items[i], v.items[i], p[1..])
      case Field(k) => SameKind(c, v) && |p| == 1 && k in v.fields && v.fields[k].Tensor?
  }

  /** Along p the output reaches a captured record with something for the field that is not copied: anything
      but a tensor where the path ends, anything at all where it goes on. */
  predicate Rebinds(c: Tree<Cell>, v: Tree<int>, p: Path)
    decreases |p|
  {
    p != [] &&
    match p[0]
    case Item(i) => SameLength(c, v) && i < |c.items| && Rebinds(c.items[i], v.items[i], p[1..])
    case Field(k) => SameKind(c, v) && k in v.fields && !(|p| == 1 && v.fields[k].Tensor?)
  }

  lemma {:induction false} LeafIsAddress(t: Tree<Cell>, p: Path, a: nat)
    requires LeafAt(t, p, a)
    ensures a in Addrs(t)
    decreases |p|
  {
    if p == [] {
    } else {
      match p[0]
      case Item(i) => LeafIsAddress(t.items[i], p[1..], a);
      case Field(k) => LeafIsAddress(t.fields[k], p[1..], a);
    }
  }

  /** One copy: the leaf takes the output's tensor exactly when the output copies at p, and keeps what it
      held otherwise. */
  lemma {:induction false} LeafAfterCopy(m: Memory, c: Tree<Cell>, v: Tree<int>, p: Path, a: nat)
    requires Distinct(c) && LeafAt(c, p, a)
    ensures Copies(c, v, p) ==> TensorAt(v, p).Some?
    ensures Read(CopyOutput(m, c, v), a) == if Copies(c, v, p) then TensorAt(v, p).value else Read(m, a)
    decreases |p|
  {
    if p == [] {
    } else {
      match p[0]
      case Item(i) =>
        LeafIsAddress(c.items[i], p[1..], a);
        if SameLength(c, v) {
          ItemCopiedAlone(m, c, v, i, |c.items|, a);
          LeafAfterCopy(m, c.items[i], v.items[i], p[1..], a);
        }
      case Field(k) =>
        LeafIsAddress(c.fields[k], p[1..], a);
        if SameKind(c, v) {
          FieldCopied(m, c, v, k, a);
        }
    }
  }

  /** An address of item i only sees that item's copy. */
  lemma {:induction false} ItemCopiedAlone(m: Memory, dst: Tree<Cell>, src: Tree<int>, i: nat, upTo: nat, a: nat)
    requires SameLength(dst, src) && Distinct(dst) && i < upTo <= |dst.items| && a in Addrs(dst.items[i])
    ensures Read(CopyItems(m, dst, src, upTo), a) == Read(CopyOutput(m, dst.items[i], src.items[i]), a)
  {
    hide CopyOutput, Addrs;
    var before, d, v := CopyItems(m, dst, src, upTo - 1), dst.items[upTo - 1], src.items[upTo - 1];
    if i < upTo - 1 {
      ItemCopiedAlone(m, dst, src, i, upTo - 1, a);
      CopyIsLocal(before, before, d, v);
      assert Addrs(dst.items[i]) !! Addrs(d);
    } else {
      ItemsAreLocal(m, m, dst, src, i);
      forall b | b in Addrs(d) ensures Read(before, b) == Read(m, b) {
        assert forall j :: 0 <= j < i ==> Addrs(dst.items[j]) !! Addrs(d);
      }
      CopyIsLocal(before, m, d, v);
    }
  }

  lemma FieldCopied(m: Memory, dst: Tree<Cell>, src: Tree<int>, k: string, a: nat)
    requires SameKind(dst, src) && Distinct(dst) && k in dst.fields && a in Addrs(dst.fields[k])
    ensures Read(m + CopiedFields(dst, src), a) ==
      if k in src.fields && IsCopied(dst, src, k) && dst.fields[k].at.address == a then src.fields[k].at else Read(m, a)
  {
    hide Addrs;
    CopiedAreFields(dst, src);
    forall k' | k' in src.fields && IsCopied(dst, src, k') && k' != k ensures dst.fields[k'].at.address != a {
      TensorAddrs(dst.fields[k']);
      assert Addrs(dst.fields[k']) !! Addrs(dst.fields[k]);
    }
    if k in src.fields && IsCopied(dst, src, k) {
      TensorAddrs(dst.fields[k]);
      assert FieldLands(dst, src, k);
    }
  }

  lemma TensorAddrs(t: Tree<Cell>)
    ensures t.Tensor? && t.at.Captured? ==> Addrs(t) == {t.at.address}
  {
  }

  /** The captured object after a list of outputs. */
  function After(c: Tree<Cell>, outputs: seq<Tree<int>>): Tree<Cell> {
    if outputs == [] then c else CopyTree(After(c, outputs[..|outputs| - 1]), outputs[|outputs| - 1])
  }

  /** Along p, c' has the lengths and kinds of c. */
  ghost predicate SameSpine(c: Tree<Cell>, c': Tree<Cell>, p: Path)
    decreases |p|
  {
    p == [] ||
    match p[0]
    case Item(i) =>
      c.Tuple? && c'.Tuple? && |c.items| == |c'.items| && i < |c.items| && SameSpine(c.items[i], c'.items[i], p[1..])
    case Field(k) =>
      c.Record? && c'.Record? && c.isDict == c'.isDict && k in c.fields && k in c'.fields
  }

  lemma {:induction false} SpineDecides(c: Tree<Cell>, c': Tree<Cell>, v: Tree<int>, p: Path)
    requires SameSpine(c, c', p)
    ensures Copies(c, v, p) == Copies(c', v, p) && Rebinds(c, v, p) == Rebinds(c', v, p)
    decreases |p|
  {
    if p == [] {
    } else if p[0].Item? && SameLength(c, v) {
      SpineDecides(c.items[p[0].index], c'.items[p[0].index], v.items[p[0].index], p[1..]);
    }
  }

  lemma {:induction false} SpineChains(c: Tree<Cell>, c': Tree<Cell>, c'': Tree<Cell>, p: Path)
    requires SameSpine(c, c', p) && SameSpine(c', c'', p)
    ensures SameSpine(c, c'', p)
    decreases |p|
  {
    if p == [] {
    } else if p[0].Item? {
      SpineChains(c.items[p[0].index], c'.items[p[0].index], c''.items[p[0].index], p[1..]);
    }
  }

  /** One copy keeps a leaf where it is, or loses its address from the object for good. */
  lemma {:induction false} LeafStays(c: Tree<Cell>, v: Tree<int>, p: Path, a: nat)
    requires Distinct(c) && LeafAt(c, p, a)
    ensures if Rebinds(c, v, p) then a !in Addrs(CopyTree(c, v))
            else LeafAt(CopyTree(c, v), p, a) && SameSpine(c, CopyTree(c, v), p)
    decreases |p|
  {
    if p == [] {
    } else {
      match p[0]
      case Item(i) =>
        LeafIsAddress(c.items[i], p[1..], a);
        if SameLength(c, v) {
          LeafStays(c.items[i], v.items[i], p[1..], a);
          OnlyInItem(c, v, i, a);
        } else {
          SpineOfItself(c, p, a);
        }
      case Field(k) =>
        LeafIsAddress(c.fields[k], p[1..], a);
        if SameKind(c, v) {
          OnlyInField(c, v, k, a);
        }
    }
  }

  lemma {:induction false} SpineOfItself(c: Tree<Cell>, p: Path, a: nat)
    requires LeafAt(c, p, a)
    ensures SameSpine(c, c, p)
    decreases |p|
  {
    if p == [] {
    } else if p[0].Item? {
      SpineOfItself(c.items[p[0].index], p[1..], a);
    }
  }

  lemma OnlyInItem(c: Tree<Cell>, v: Tree<int>, i: nat, a: nat)
    requires Distinct(c) && SameLength(c, v) && i < |c.items| && a in Addrs(c.items[i])
    ensures a in Addrs(CopyTree(c, v)) ==> a in Addrs(CopyTree(c.items[i], v.items[i]))
  {
    forall j | 0 <= j < |c.items| && j != i ensures a !in Addrs(CopyTree(c.items[j], v.items[j])) {
      CopyTreeKeeps(c.items[j], v.items[j]);
      assert Addrs(c.items[j]) !! Addrs(c.items[i]);
    }
  }

  lemma OnlyInField(c: Tree<Cell>, v: Tree<int>, k: string, a: nat)
    requires Distinct(c) && SameKind(c, v) && k in c.fields && a in Addrs(c.fields[k])
    ensures a in Addrs(CopyTree(c, v)) ==> k !in v.fields || IsCopied(c, v, k)
  {
    forall k' | k' in c.fields.Keys + v.fields.Keys && k' != k ensures a !in Addrs(FieldAfter(c, v, k')) {
      FieldAfterKeeps(c, v, k');
      if k' in c.fields {
        assert Addrs(c.fields[k']) !! Addrs(c.fields[k]);
      }
    }
    if k in v.fields {
      DetachedHasNone(v.fields[k]);
    }
  }

  predicate NeverRebound(c: Tree<Cell>, outputs: seq<Tree<int>>, p: Path) {
    forall j :: 0 <= j < |outputs| ==> !Rebinds(c, outputs[j], p)
  }

  /** A leaf stays in the captured object exactly while no output rebinds a record on its path. */
  lemma {:induction false} LeafWhileUnbound(c: Tree<Cell>, outputs: seq<Tree<int>>, p: Path, a: nat)
    requires Distinct(c) && LeafAt(c, p, a)
    ensures Distinct(After(c, outputs))
    ensures if NeverRebound(c, outputs, p) then LeafAt(After(c, outputs), p, a) && SameSpine(c, After(c, outputs), p)
            else a !in Addrs(After(c, outputs))
  {
    hide CopyTree, LeafAt, SameSpine, Rebinds, Addrs, Distinct;
    if outputs == [] {
      SpineOfItself(c, p, a);
    } else {
      var rest, v := outputs[..|outputs| - 1], outputs[|outputs| - 1];
      LeafWhileUnbound(c, rest, p, a);
      CopyTreeKeeps(After(c, rest), v);
      if NeverRebound(c, rest, p) {
        LeafStays(After(c, rest), v, p, a);
        SpineDecides(c, After(c, rest), v, p);
        if !Rebinds(c, v, p) {
          SpineChains(c, After(c, rest), After(c, outputs), p);
        }
      } else {
        var j :| 0 <= j < |rest| && Rebinds(c, rest[j], p);
        assert outputs[j] == rest[j];
      }
    }
  }

  /** The last output's tensor at path p is what the captured address holds after its copy. */
  ghost predicate Lands(m: Memory, c: Tree<Cell>, v: Tree<int>, p: Path, a: nat)
    requires Distinct(c)
  {
    TensorAt(v, p).Some? && Read(CopyOutput(m, c, v), a) == TensorAt(v, p).value
  }

  ghost predicate AlwaysLands(c: Tree<Cell>, v: Tree<int>, p: Path, a: nat)
    requires Distinct(c)
  {
    forall m: Memory :: Lands(m, c, v, p, a)
  }

  /** Over any list of outputs, the next one reaches a captured tensor, whatever the memory holds by then,
      exactly when it copies along the tensor's path and no output before it rebound a record on that path. */
  lemma OutputReachesLeaf(c: Tree<Cell>, outputs: seq<Tree<int>>, v: Tree<int>, p: Path, a: nat)
    requires Distinct(c) && LeafAt(c, p, a)
    ensures Distinct(After(c, outputs))
    ensures AlwaysLands(After(c, outputs), v, p, a) <==> Copies(c, v, p) && NeverRebound(c, outputs, p)
  {
    hide CopyOutput, LeafAt, SameSpine, Rebinds, Copies, Addrs, Distinct, TensorAt, After, NeverRebound;
    LeafWhileUnbound(c, outputs, p, a);
    var now := After(c, outputs);
    if NeverRebound(c, outputs, p) {
      SpineDecides(c, now, v, p);
      forall m: Memory ensures Lands(m, now, v, p, a) <==>
        TensorAt(v, p).Some? && (Copies(c, v, p) || Read(m, a) == TensorAt(v, p).value)
      {
        LeafAfterCopy(m, now, v, p, a);
      }
      LeafAfterCopy(map[], now, v, p, a);
    } else {
      forall m: Memory ensures Lands(m, now, v, p, a) <==>
        TensorAt(v, p).Some? && Read(m, a) == TensorAt(v, p).value
      {
        CopyIsLocal(m, m, now, v);
      }
    }
    if AlwaysLands(now, v, p, a) {
      assert Lands(map[], now, v, p, a);
      var other: Memory := map[a := TensorAt(v, p).value + 1];
      assert Lands(other, now, v, p, a);
    }
    if Copies(c, v, p) && NeverRebound(c, outputs, p) {
      forall m: Memory ensures Lands(m, now, v, p, a) {
      }
    }
  }

  // ---- What that means by shape ------------------------------------------------------------

  ghost predicate OutsideRecords(p: Path) {
    forall i :: 0 <= i < |p| ==> p[i].Item?
  }

  /** Outside records only the output at hand matters. */
  lemma {:induction false} OutsideRecordsNeverRebound(c: Tree<Cell>, v: Tree<int>, p: Path)
    requires OutsideRecords(p)
    ensures !Rebinds(c, v, p)
    decreases |p|
  {
    if p == [] {
    } else {
      assert p[0].Item? && forall i :: 0 <= i < |p| - 1 ==> p[1..][i] == p[i + 1];
      if SameLength(c, v) && p[0].index < |c.items| {
        OutsideRecordsNeverRebound(c.items[p[0].index], v.items[p[0].index], p[1..]);
      }
    }
  }

  /** Below a record's direct fields nothing is ever copied: such a tensor keeps what it held. */
  lemma {:induction false} BelowFieldNeverCopied(c: Tree<Cell>, v: Tree<int>, p: Path, i: nat)
    requires i + 1 < |p| && p[i].Field?
    ensures !Copies(c, v, p)
    ensures Distinct(c) ==> forall m: Memory, a :: LeafAt(c, p, a) ==> Read(CopyOutput(m, c, v), a) == Read(m, a)
    decreases |p|
  {
    if i > 0 && p[0].Item? && SameLength(c, v) && p[0].index < |c.items| {
      BelowFieldNeverCopied(c.items[p[0].index], v.items[p[0].index], p[1..], i - 1);
    }
    if Distinct(c) {
      forall m: Memory, a | LeafAt(c, p, a) ensures Read(CopyOutput(m, c, v), a) == Read(m, a) {
        LeafAfterCopy(m, c, v, p, a);
      }
    }
  }

  /** A tensor inside a tuple inside a record is not copied, though the structure is the same. */
  lemma NestedTupleStaysStale(d: bool, key: string, a: nat, value: int)
    ensures var c := Record(d, map[key := Tuple([Tensor(Captured(a))])]);
      var v := Record(d, map[key := Tuple([Tensor(value)])]);
      Distinct(c) && !AlwaysLands(c, v, [Field(key), Item(0)], a)
  {
    var inner: Tree<Cell> := Tuple([Tensor(Captured(a))]);
    var c := Record(d, map[key := inner]);
    var v: Tree<int> := Record(d, map[key := Tuple([Tensor(value)])]);
    var p := [Field(key), Item(0)];
    assert p[1..] == [Item(0)] && p[1..][1..] == [];
    assert LeafAt(inner.items[0], [], a) && LeafAt(inner, p[1..], a) && LeafAt(c, p, a);
    assert Distinct(inner.items[0]) && Distinct(inner);
    BelowFieldNeverCopied(c, v, p, 0);
    OutputReachesLeaf(c, [], v, p, a);
  }

  /** A field once answered by a plain value stays stale, however well later outputs match. */
  lemma OncePlainStaysStale(d: bool, key: string, a: nat, plain: int, value: int)
    ensures var c := Record(d, map[key := Tensor(Captured(a))]);
      var now := After(c, [Record(d, map[key := Plain(plain)])]);
      Distinct(now) && !AlwaysLands(now, Record(d, map[key := Tensor(value)]), [Field(key)], a)
  {
    var leaf: Tree<Cell> := Tensor(Captured(a));
    var c := Record(d, map[key := leaf]);
    var first: Tree<int> := Record(d, map[key := Plain(plain)]);
    var p := [Field(key)];
    assert p[1..] == [] && LeafAt(leaf, [], a) && LeafAt(c, p, a);
    assert Distinct(leaf);
    assert Rebinds(c, [first][0], p);
    OutputReachesLeaf(c, [first], Record(d, map[key := Tensor(value)]), p, a);
  }

  // ---- Outputs that keep the whole structure -----------------------------------------------

  /** Tensors against tensors, equal plain values, tuples of one length, records of one kind with the same
      keys whose tensors are direct fields. */
  ghost predicate Matches(dst: Tree<Cell>, src: Tree<int>) {
    match dst
    case Tensor(c) => src.Tensor? && (c.Captured? || src.at == c.contents)
    case Plain(v) => src == Plain(v)
    case Tuple(items) =>
      SameLength(dst, src) && forall i :: 0 <= i < |items| ==> Matches(items[i], src.items[i])
    case Record(_, fields) =>
      SameKind(dst, src) && src.fields.Keys == fields.Keys && forall k :: k in fields ==> FieldMatches(dst, src, k)
  }

  ghost predicate FieldMatches(dst: Tree<Cell>, src: Tree<int>, k: string)
    requires dst.Record? && src.Record? && k in dst.fields && k in src.fields
  {
    IsCopied(dst, src, k) || (Addrs(dst.fields[k]) == {} && Contents(map[], dst.fields[k]) == src.fields[k])
  }

  lemma {:induction false} FrozenIsDetached(t: Tree<Cell>)
    requires Addrs(t) == {}
    ensures AsDetached(Contents(map[], t)) == t
  {
    match t
    case Tensor(_) =>
    case Plain(_) =>
    case Tuple(items) =>
      forall i | 0 <= i < |items| ensures AsDetached(Contents(map[], items[i])) == items[i] {
        assert Addrs(items[i]) <= Addrs(t);
        FrozenIsDetached(items[i]);
      }
    case Record(_, fields) =>
      forall k | k in fields ensures AsDetached(Contents(map[], fields[k])) == fields[k] {
        assert Addrs(fields[k]) <= Addrs(t);
        FrozenIsDetached(fields[k]);
      }
  }

  /** The captured object is left as it was. */
  lemma {:induction false} MatchingKeepsTree(dst: Tree<Cell>, src: Tree<int>)
    requires Matches(dst, src)
    ensures CopyTree(dst, src) == dst
  {
    match dst
    case Tensor(_) =>
    case Plain(_) =>
    case Tuple(items) =>
      forall i | 0 <= i < |items| ensures CopyTree(items[i], src.items[i]) == items[i] {
        MatchingKeepsTree(items[i], src.items[i]);
      }
    case Record(_, fields) =>
      forall k | k in fields ensures FieldAfter(dst, src, k) == fields[k] {
        assert FieldMatches(dst, src, k);
        if !IsCopied(dst, src, k) {
          FrozenIsDetached(fields[k]);
        }
      }
      assert dst.fields.Keys + src.fields.Keys == fields.Keys;
  }

  /** What can be matched at all is matched by its own contents. */
  lemma {:induction false} MatchesOwn(m: Memory, dst: Tree<Cell>, src: Tree<int>)
    requires Matches(dst, src)
    ensures Matches(dst, Contents(m, dst))
  {
    match dst
    case Tensor(_) =>
    case Plain(_) =>
    case Tuple(items) =>
      forall i | 0 <= i < |items| ensures Matches(items[i], Contents(m, dst).items[i]) {
        MatchesOwn(m, items[i], src.items[i]);
      }
    case Record(_, fields) =>
      forall k | k in fields ensures FieldMatches(dst, Contents(m, dst), k) {
        assert FieldMatches(dst, src, k);
        if !IsCopied(dst, src, k) {
          ContentsFrame(m, map[], fields[k]);
        }
      }
  }

  /** And reads as the fresh output, plain values and keys included. */
  lemma {:induction false} MatchingIsCopied(m: Memory, dst: Tree<Cell>, src: Tree<int>)
    requires Distinct(dst) && Matches(dst, src)
    ensures Contents(CopyOutput(m, dst, src), dst) == src
    decreases dst, 0
  {
    match dst
    case Tensor(_) =>
    case Plain(_) =>
    case Tuple(items) => MatchingItemsAreCopied(m, dst, src, |items|);
    case Record(_, fields) =>
      var m' := CopyOutput(m, dst, src);
      forall k | k in fields ensures Contents(m', fields[k]) == src.fields[k] {
        assert FieldMatches(dst, src, k);
        if IsCopied(dst, src, k) {
          TensorAddrs(fields[k]);
          FieldCopied(m, dst, src, k, fields[k].at.address);
        } else {
          ContentsFrame(m', map[], fields[k]);
        }
      }
  }

  lemma {:induction false} MatchingItemsAreCopied(m: Memory, dst: Tree<Cell>, src: Tree<int>, upTo: nat)
    requires dst.Tuple? && Distinct(dst) && Matches(dst, src) && upTo <= |dst.items|
    ensures forall i :: 0 <= i < upTo ==> Contents(CopyItems(m, dst, src, upTo), dst.items[i]) == src.items[i]
    decreases dst, 0, upTo
  {
    hide CopyOutput, Contents, Addrs;
    if upTo > 0 {
      MatchingItemsAreCopied(m, dst, src, upTo - 1);
      var before, d, v := CopyItems(m, dst, src, upTo - 1), dst.items[upTo - 1], src.items[upTo - 1];
      MatchingIsCopied(before, d, v);
      CopyIsLocal(before, before, d, v);
      forall i | 0 <= i < upTo - 1 ensures Contents(CopyOutput(before, d, v), dst.items[i]) == src.items[i] {
        assert Addrs(dst.items[i]) !! Addrs(d);
        ContentsFrame(CopyOutput(before, d, v), before, dst.items[i]);
      }
    }
  }
}
