/** The drag-to-reorder behaviour of sortable.js. The container's children
    are a sequence of nodes; the DOM state the module touches (which
    elements carry the `draggable` attribute, their inline `cursor`, and
    whether the listeners are attached) is held in fields of the class
    `MoSortable` beside the module's own fields. Event objects become the
    chain of elements from the event target up through its ancestors. */
module Sortable {
  import opened Text

  /** An element: its identity and its tag name. */
  datatype Node = Node(id: nat, tag: string)

  /** An argument of `init` that may or may not be a function. */
  datatype Arg = Function(fn: nat) | NotFunction

  /** A call of the drop callback: the function, the dragged element, the
      container's children and the container. */
  datatype Invocation = Invocation(fn: nat, dragged: Option<Node>, children: seq<Node>, container: Option<Node>)

  /** No element occurs twice among the children of one parent. */
  predicate Distinct(s: seq<Node>)
  {
    forall i, j :: 0 <= i < j < |s| ==> s[i] != s[j]
  }

  /** The position of an element among the children. */
  function IndexOf(s: seq<Node>, x: Node): (i: nat)
    requires x in s
    ensures i < |s| && s[i] == x && x !in s[..i]
  {
    if s[0] == x then 0
    else
      var i := 1 + IndexOf(s[1..], x);
      assert s[..i] == [s[0]] + s[1..][..i - 1];
      i
  }

  lemma IndexOfDistinct(s: seq<Node>, k: nat)
    requires Distinct(s) && k < |s|
    ensures IndexOf(s, s[k]) == k
  {
    var i := IndexOf(s, s[k]);
    assert forall j :: 0 <= j < i ==> s[j] in s[..i];
  }

  function Remove(s: seq<Node>, i: nat): (r: seq<Node>)
    requires i < |s|
    ensures |r| == |s| - 1
  {
    s[..i] + s[i + 1..]
  }

  function Insert(s: seq<Node>, j: nat, x: Node): (r: seq<Node>)
    requires j <= |s|
    ensures |r| == |s| + 1 && r[j] == x
  {
    s[..j] + [x] + s[j..]
  }

  /** `parent.insertBefore(x, ref)` for a child `x`: it leaves its place and
      goes just before `ref`. */
  function InsertBefore(s: seq<Node>, x: Node, ref: Node): seq<Node>
    requires x in s && ref in s && x != ref
  {
    var t := Remove(s, IndexOf(s, x));
    RemoveKeeps(s, IndexOf(s, x), IndexOf(s, ref));
    Insert(t, IndexOf(t, ref), x)
  }

  /** `parent.appendChild(x)` for a child `x`: it goes to the end. */
  function AppendChild(s: seq<Node>, x: Node): seq<Node>
    requires x in s
  {
    Remove(s, IndexOf(s, x)) + [x]
  }

  /** The position the dragged child takes in `Moved`, among the children
      without it. */
  function Slot(d: nat, t: nat): nat
  {
    if t + 1 == d then t else if t < d then t + 1 else t
  }

  /** The reorder rule of `_dragOver`: the dragged child `s[d]` goes just
      before the target `s[t]` when it was the target's next sibling, and
      just after the target otherwise. */
  function Moved(s: seq<Node>, d: nat, t: nat): (r: seq<Node>)
    requires d < |s| && t < |s| && d != t
    ensures |r| == |s|
  {
    Insert(Remove(s, d), Slot(d, t), s[d])
  }

  lemma RemoveKeeps(s: seq<Node>, i: nat, k: nat)
    requires i < |s| && k < |s| && i != k
    ensures Remove(s, i)[if k < i then k else k - 1] == s[k]
  {
  }

  /** The three branches of `_dragOver` (sortable.js:173-179), written with
      the DOM's `insertBefore` and `appendChild`, place the dragged child
      as `Moved` says. */
  lemma {:induction false} BranchesAreMoved(s: seq<Node>, d: nat, t: nat)
    requires Distinct(s) && d < |s| && t < |s| && d != t
    ensures t + 1 < |s| && s[t + 1] == s[d] ==> InsertBefore(s, s[d], s[t]) == Moved(s, d, t)
    ensures t + 1 < |s| && s[t + 1] != s[d] ==> InsertBefore(s, s[d], s[t + 1]) == Moved(s, d, t)
    ensures t + 1 == |s| ==> AppendChild(s, s[d]) == Moved(s, d, t)
  {
    IndexOfDistinct(s, d);
    var r := Remove(s, d);
    RemoveDistinct(s, d);
    if t + 1 < |s| && s[t + 1] == s[d] {
      IndexOfDistinct(s, t + 1);
      RemoveKeeps(s, d, t);
      IndexOfDistinct(r, t);
    } else if t + 1 < |s| {
      IndexOfDistinct(s, t + 1);
      var n := if t + 1 < d then t + 1 else t;
      RemoveKeeps(s, d, t + 1);
      IndexOfDistinct(r, n);
    } else {
      assert Insert(r, |r|, s[d]) == r + [s[d]];
    }
  }

  lemma RemoveDistinct(s: seq<Node>, i: nat)
    requires Distinct(s) && i < |s|
    ensures Distinct(Remove(s, i))
    ensures s[i] !in Remove(s, i)
  {
    var r := Remove(s, i);
    forall a, b | 0 <= a < b < |r|
      ensures r[a] != r[b]
    {
      RemoveKeeps(s, i, if a < i then a else a + 1);
      RemoveKeeps(s, i, if b < i then b else b + 1);
    }
    forall k | 0 <= k < |r|
      ensures r[k] != s[i]
    {
      RemoveKeeps(s, i, if k < i then k else k + 1);
    }
  }

  /** A reorder only permutes the children. */
  lemma MovedPermutation(s: seq<Node>, d: nat, t: nat)
    requires d < |s| && t < |s| && d != t
    ensures multiset(Moved(s, d, t)) == multiset(s)
  {
    var r := Remove(s, d);
    var j := Slot(d, t);
    assert s == s[..d] + [s[d]] + s[d + 1..];
    assert multiset(r) == multiset(s[..d]) + multiset(s[d + 1..]);
    assert r == r[..j] + r[j..];
    assert multiset(r) == multiset(r[..j]) + multiset(r[j..]);
    assert Moved(s, d, t) == r[..j] + [s[d]] + r[j..];
    assert multiset(Moved(s, d, t)) == multiset(r[..j]) + multiset([s[d]]) + multiset(r[j..]);
    assert multiset(s) == multiset(s[..d]) + multiset([s[d]]) + multiset(s[d + 1..]);
    assert multiset(Moved(s, d, t)) == multiset(r) + multiset([s[d]]);
    assert multiset(s) == multiset(r) + multiset([s[d]]);
  }

  /** Only the dragged child moves: it sits at `Slot(d, t)`, and without it
      the children are in the same order as before. */
  lemma MovedKeepsOthers(s: seq<Node>, d: nat, t: nat)
    requires d < |s| && t < |s| && d != t
    ensures Moved(s, d, t)[Slot(d, t)] == s[d]
    ensures Remove(Moved(s, d, t), Slot(d, t)) == Remove(s, d)
  {
    var r := Remove(s, d);
    var j := Slot(d, t);
    assert Insert(r, j, s[d])[..j] == r[..j];
    assert Insert(r, j, s[d])[j + 1..] == r[j..];
  }

  /** The dragged child ends up right beside the target: before it when it
      came right after it, after it otherwise. */
  lemma MovedNextToTarget(s: seq<Node>, d: nat, t: nat)
    requires d < |s| && t < |s| && d != t
    ensures t + 1 == d ==> Moved(s, d, t)[Slot(d, t) + 1] == s[t]
    ensures t + 1 != d ==> Slot(d, t) > 0 && Moved(s, d, t)[Slot(d, t) - 1] == s[t]
  {
    RemoveKeeps(s, d, t);
  }

  lemma MovedDistinct(s: seq<Node>, d: nat, t: nat)
    requires Distinct(s) && d < |s| && t < |s| && d != t
    ensures Distinct(Moved(s, d, t))
  {
    RemoveDistinct(s, d);
    var r := Remove(s, d);
    var m := Moved(s, d, t);
    var j := Slot(d, t);
    forall a, b | 0 <= a < b < |m|
      ensures m[a] != m[b]
    {
      if a == j {
        assert m[b] == r[b - 1];
      } else if b == j {
        assert m[a] == r[a];
      } else {
        assert m[a] == r[if a < j then a else a - 1];
        assert m[b] == r[if b < j then b else b - 1];
      }
    }
  }

  // Walking up from the event target.

  /** The nearest element of the chain carrying `draggable`, as the loop
      of `_dragStart` finds it (sortable.js:138-140); None where the loop
      climbs past the root and throws. */
  function Nearest(chain: seq<Node>, marked: set<Node>): (r: Option<nat>)
    ensures r.Some? ==> r.value < |chain| && chain[r.value] in marked &&
                        (forall k :: 0 <= k < r.value ==> chain[k] !in marked)
    ensures r.None? ==> forall k :: 0 <= k < |chain| ==> chain[k] !in marked
  {
    if |chain| == 0 then None
    else if chain[0] in marked then Some(0)
    else match Nearest(chain[1..], marked)
      case None => None
      case Some(k) => Some(k + 1)
  }

  /** The element the loop of `_dragOver` stops on (sortable.js:159-165):
      the first one carrying `draggable`, unless the walk climbs onto the
      container first (`return false`) or runs out of ancestors. */
  function OverTarget(chain: seq<Node>, marked: set<Node>, container: Option<Node>): (r: Option<Node>)
    ensures r.Some? ==> r.value in chain && r.value in marked
  {
    if |chain| == 0 then None
    else if chain[0] in marked then Some(chain[0])
    else if |chain| > 1 && Some(chain[1]) == container then None
    else OverTarget(chain[1..], marked, container)
  }

  /** What `_dragOver` leaves as the container's children. A target that is
      the container, the dragged element, or has another tag changes
      nothing; otherwise the dragged child is moved beside the target. */
  function DragOverResult(s: seq<Node>, chain: seq<Node>, marked: set<Node>, container: Option<Node>,
                          dragged: Option<Node>, tagNames: Option<string>): seq<Node>
  {
    match OverTarget(chain, marked, container)
    case None => s
    case Some(target) =>
      if Some(target) != container && Some(target) != dragged && Some(target.tag) == tagNames &&
         dragged.Some? && dragged.value in s && target in s
      then Moved(s, IndexOf(s, dragged.value), IndexOf(s, target))
      else s
  }

  /** A drag over never adds, drops or duplicates a child, and it moves at
      most the dragged one: either nothing changes, or the dragged child
      has a new place and the others keep their order. */
  lemma DragOverOnlyMovesDragged(s: seq<Node>, chain: seq<Node>, marked: set<Node>, container: Option<Node>,
                                 dragged: Option<Node>, tagNames: Option<string>)
    requires Distinct(s)
    ensures var r := DragOverResult(s, chain, marked, container, dragged, tagNames);
      multiset(r) == multiset(s) && Distinct(r) &&
      (r == s || (dragged.Some? && dragged.value in s && dragged.value in r &&
                  Remove(r, IndexOf(r, dragged.value)) == Remove(s, IndexOf(s, dragged.value))))
  {
    var r := DragOverResult(s, chain, marked, container, dragged, tagNames);
    if r != s {
      var target := OverTarget(chain, marked, container).value;
      var d, t := IndexOf(s, dragged.value), IndexOf(s, target);
      MovedPermutation(s, d, t);
      MovedKeepsOthers(s, d, t);
      MovedDistinct(s, d, t);
      IndexOfDistinct(r, Slot(d, t));
    }
  }

  /** Hovering over the dragged element itself, or over an element with
      another tag name, leaves the children as they are. */
  lemma DragOverIgnores(s: seq<Node>, chain: seq<Node>, marked: set<Node>, container: Option<Node>,
                        dragged: Option<Node>, tagNames: Option<string>)
    requires OverTarget(chain, marked, container).Some?
    requires var t := OverTarget(chain, marked, container).value;
      Some(t) == dragged || Some(t) == container || Some(t.tag) != tagNames
    ensures DragOverResult(s, chain, marked, container, dragged, tagNames) == s
  {
  }

  /** Climbing onto the container before finding a draggable element stops
      the walk: nothing moves. */
  lemma {:induction false} ClimbOntoContainer(chain: seq<Node>, marked: set<Node>, container: Option<Node>, k: nat)
    requires 0 < k < |chain| && Some(chain[k]) == container
    requires forall i :: 0 <= i < k ==> chain[i] !in marked
    ensures OverTarget(chain, marked, container).None?
  {
    if k > 1 {
      assert chain[1..][k - 1] == chain[k];
      ClimbOntoContainer(chain[1..], marked, container, k - 1);
    }
  }

  // `_setChildrens`.

  /** Every child has the tag name `tag`. */
  predicate Uniform(s: seq<Node>, tag: string)
  {
    forall i :: 0 <= i < |s| ==> s[i].tag == tag
  }

  /** The tag name the module remembers after `_setChildrens`: the one it
      had, or the first child's when it had none. */
  function TagAfter(tagNames: Option<string>, s: seq<Node>): (r: Option<string>)
    ensures tagNames.Some? ==> r == tagNames
    ensures tagNames.None? && |s| > 0 ==> r == Some(s[0].tag)
    ensures tagNames.None? && |s| == 0 ==> r.None?
  {
    if tagNames.None? && |s| > 0 then Some(s[0].tag) else tagNames
  }

  /** The children may be sorted exactly when all have the remembered tag
      name (sortable.js:111-126). */
  predicate Allowed(tagNames: Option<string>, s: seq<Node>)
  {
    |s| == 0 || Uniform(s, TagAfter(tagNames, s).value)
  }

  /** The elements of a list of children. */
  function Elements(s: seq<Node>): (r: set<Node>)
    ensures forall n :: n in r <==> n in s
  {
    set n | n in s
  }

  /** A cursor map with every child set to `v`. */
  function WithCursor(m: map<Node, string>, s: seq<Node>, v: string): (r: map<Node, string>)
    ensures forall n :: n in s ==> n in r && r[n] == v
    ensures forall n :: n in m && n !in s ==> n in r && r[n] == m[n]
    ensures r.Keys == m.Keys + Elements(s)
  {
    map n | n in m.Keys + Elements(s) :: if n in s then v else m[n]
  }

  lemma WithCursorStep(m: map<Node, string>, s: seq<Node>, x: Node, v: string)
    ensures WithCursor(m, s + [x], v) == WithCursor(m, s, v)[x := v]
  {
  }

  lemma SetStep(s: seq<Node>, x: Node)
    ensures Elements(s + [x]) == Elements(s) + {x}
  {
  }

  /** One more child in `_setChildrens`: the tag name is fixed by the first
      child, and the verdict stays true while each child has it. */
  lemma AllowedStep(tagNames: Option<string>, s: seq<Node>, x: Node)
    ensures TagAfter(tagNames, s + [x]) == TagAfter(TagAfter(tagNames, s), [x])
    ensures Allowed(tagNames, s + [x]) <==>
      Allowed(tagNames, s) && x.tag == TagAfter(tagNames, s + [x]).value
  {
    if |s| > 0 {
      assert (s + [x])[0] == s[0];
    }
    assert forall i :: 0 <= i < |s| ==> (s + [x])[i] == s[i];
    assert (s + [x])[|s|] == x;
  }

  /** The remembered tag name is never reset by a later `_setChildrens`:
      once the first children fixed it, children inserted later are
      measured against it. */
  lemma TagKept(tagNames: Option<string>, s: seq<Node>, s2: seq<Node>)
    requires |s| > 0
    ensures TagAfter(TagAfter(tagNames, s), s2) == TagAfter(tagNames, s)
    ensures Allowed(TagAfter(tagNames, s), s2) <==> Uniform(s2, TagAfter(tagNames, s).value)
  {
  }

  /** Children with two different tag names are never allowed. */
  lemma MixedNotAllowed(tagNames: Option<string>, s: seq<Node>, i: nat, j: nat)
    requires i < |s| && j < |s| && s[i].tag != s[j].tag
    ensures !Allowed(tagNames, s)
  {
  }

  class MoSortable {
    /** The sortable container. */
    var elSort: Option<Node>
    /** Its children, as `_setChildrens` last read them. */
    var children: seq<Node>
    /** The element being dragged. */
    var elDragged: Option<Node>
    /** The tag name all children must share. */
    var tagNames: Option<string>
    /** The drop callback. */
    var callback: Option<nat>
    /** The elements that carry the `draggable` attribute. */
    var draggable: set<Node>
    /** The inline `cursor` style of each element that has one. */
    var cursor: map<Node, string>
    /** Whether the container listens to `dragstart`, `dragover` and
        `drop`. */
    var listening: bool
    /** Whether the document's `DOMNodeInserted` and `DOMNodeRemoved`
        listeners are attached. */
    var watching: bool

    predicate Valid()
      reads this
    {
      Distinct(children)
    }

    /** The state `_setElements` gives (sortable.js:9-14); `marked` and
        `styles` are the attributes the page already has. */
    constructor (marked: set<Node>, styles: map<Node, string>)
      ensures Valid()
      ensures elSort.None? && children == [] && elDragged.None? && tagNames.None? && callback.None?
      ensures draggable == marked && cursor == styles && !listening && !watching
    {
      elSort := None;
      children := [];
      elDragged := None;
      tagNames := None;
      callback := None;
      draggable := marked;
      cursor := styles;
      listening := false;
      watching := false;
    }

    /** `_setElements` (sortable.js:9-14): the module's own fields are reset;
        the page's attributes stay. */
    method SetElements()
      modifies this
      ensures Valid()
      ensures elSort.None? && children == [] && elDragged.None? && tagNames.None? && callback.None?
      ensures draggable == old(draggable) && cursor == old(cursor)
      ensures listening == old(listening) && watching == old(watching)
    {
      elSort := None;
      children := [];
      elDragged := None;
      tagNames := None;
      callback := None;
    }

    /** `_setChildrens` (sortable.js:111-126): reads the container's
        children `kids`, marks each draggable with a `move` cursor, fixes
        the tag name from the first child when none is remembered, and
        reports whether all children share it. */
    method SetChildrens(kids: seq<Node>) returns (allowed: bool)
      modifies this`children, this`draggable, this`cursor, this`tagNames
      ensures children == kids
      ensures tagNames == TagAfter(old(tagNames), kids)
      ensures allowed == Allowed(old(tagNames), kids)
      ensures draggable == old(draggable) + Elements(kids)
      ensures cursor == WithCursor(old(cursor), kids, "move")
    {
      ghost var marked0, styles0, tag0 := draggable, cursor, tagNames;
      allowed := true;
      children := kids;
      var i := 0;
      while i < |children|
        invariant 0 <= i <= |children| && children == kids
        invariant draggable == marked0 + Elements(kids[..i])
        invariant cursor == WithCursor(styles0, kids[..i], "move")
        invariant tagNames == TagAfter(tag0, kids[..i])
        invariant allowed == Allowed(tag0, kids[..i])
      {
        var child := children[i];
        assert kids[..i + 1] == kids[..i] + [child];
        SetStep(kids[..i], child);
        WithCursorStep(styles0, kids[..i], child, "move");
        AllowedStep(tag0, kids[..i], child);
        draggable := draggable + {child};
        cursor := cursor[child := "move"];
        if tagNames.None? {
          tagNames := Some(child.tag);
        } else if tagNames.value != child.tag {
          allowed := false;
        }
        i := i + 1;
      }
      assert kids[..i] == kids;
    }

    /** The loop that strips the children of a container that may not be
        sorted (sortable.js:40-43 and 99-102). */
    method Unmark()
      modifies this`draggable, this`cursor
      ensures draggable == old(draggable) - Elements(children)
      ensures cursor == WithCursor(old(cursor), children, "")
    {
      ghost var marked0, styles0 := draggable, cursor;
      var i := 0;
      while i < |children|
        invariant 0 <= i <= |children|
        invariant draggable == marked0 - Elements(children[..i])
        invariant cursor == WithCursor(styles0, children[..i], "")
      {
        var child := children[i];
        assert children[..i + 1] == children[..i] + [child];
        SetStep(children[..i], child);
        WithCursorStep(styles0, children[..i], child, "");
        draggable := draggable - {child};
        cursor := cursor[child := ""];
        i := i + 1;
      }
      assert children[..i] == children;
    }

    /** `_upload` (sortable.js:32-45), run when a node is inserted in the
        document: the children are read again, and stripped when they may
        not be sorted. */
    method Upload(kids: seq<Node>)
      requires Distinct(kids)
      modifies this`children, this`draggable, this`cursor, this`tagNames
      ensures Valid() && children == kids
      ensures tagNames == TagAfter(old(tagNames), kids)
      ensures Allowed(old(tagNames), kids) ==>
        draggable == old(draggable) + Elements(kids) && cursor == WithCursor(old(cursor), kids, "move")
      ensures !Allowed(old(tagNames), kids) ==>
        draggable == old(draggable) - Elements(kids) && cursor == WithCursor(old(cursor), kids, "")
    {
      var allowed := SetChildrens(kids);
      if !allowed {
        Unmark();
      }
    }

    /** `init` (sortable.js:67-104). Without a container it returns `false`
        (`accepted` is false) and attaches nothing. Otherwise it reads the
        children; when they may be sorted it attaches the listeners and
        takes `options` as the callback if it is a function, else
        `callback` if that is one; when they may not, it strips them. */
    method Init(container: Option<Node>, kids: seq<Node>, options: Arg, callbackArg: Arg) returns (accepted: bool)
      requires Distinct(kids)
      modifies this
      ensures Valid()
      ensures elDragged.None? && !(container.None? && accepted)
      ensures accepted <==> container.Some?
      ensures container.None? ==>
        elSort.None? && children == [] && tagNames.None? && callback.None? &&
        draggable == old(draggable) && cursor == old(cursor) &&
        listening == old(listening) && watching == old(watching)
      ensures container.Some? ==> elSort == container && children == kids && tagNames == TagAfter(None, kids)
      ensures container.Some? && Allowed(None, kids) ==>
        listening && watching &&
        callback == (if options.Function? then Some(options.fn)
                     else if callbackArg.Function? then Some(callbackArg.fn) else None) &&
        draggable == old(draggable) + Elements(kids) && cursor == WithCursor(old(cursor), kids, "move")
      ensures container.Some? && !Allowed(None, kids) ==>
        callback.None? && listening == old(listening) && watching == old(watching) &&
        draggable == old(draggable) - Elements(kids) && cursor == WithCursor(old(cursor), kids, "")
    {
      SetElements();
      if container.None? {
        return false;
      }
      elSort := container;
      var allowed := SetChildrens(kids);
      if allowed {
        Attach(options, callbackArg);
      } else {
        Unmark();
      }
      return true;
    }

    /** The part of `init` that runs when the children may be sorted
        (sortable.js:79-96): the listeners are attached and the callback is
        `options` when that is a function, else `callback` when that is
        one. */
    method Attach(options: Arg, callbackArg: Arg)
      modifies this`listening, this`watching, this`callback
      ensures listening && watching
      ensures callback == if options.Function? then Some(options.fn)
                          else if callbackArg.Function? then Some(callbackArg.fn) else old(callback)
    {
      listening := true;
      if options.Function? {
        callback := Some(options.fn);
      } else if callbackArg.Function? {
        callback := Some(callbackArg.fn);
      }
      watching := true;
    }

    /** `_dragStart` (sortable.js:135-146): records the nearest element,
        from the event target up, that carries `draggable`. `found` is
        false where the walk climbs past the root, where the browser
        throws; nothing is recorded then. */
    method DragStart(chain: seq<Node>) returns (found: bool)
      modifies this`elDragged
      ensures found <==> Nearest(chain, draggable).Some?
      ensures found ==> elDragged == Some(chain[Nearest(chain, draggable).value])
      ensures !found ==> elDragged == old(elDragged)
    {
      var i := 0;
      while i < |chain| && chain[i] !in draggable
        invariant 0 <= i <= |chain|
        invariant forall k :: 0 <= k < i ==> chain[k] !in draggable
        invariant Nearest(chain[i..], draggable).Some? ==>
          Nearest(chain, draggable) == Some(i + Nearest(chain[i..], draggable).value)
        invariant Nearest(chain[i..], draggable).None? ==> Nearest(chain, draggable).None?
      {
        assert chain[i..][1..] == chain[i + 1..];
        i := i + 1;
      }
      if i == |chain| {
        return false;
      }
      assert Nearest(chain[i..], draggable) == Some(0);
      elDragged := Some(chain[i]);
      return true;
    }

    /** `_dragOver` (sortable.js:155-181): walks up from the event target to
        an element carrying `draggable`, giving up on reaching the
        container, and moves the dragged child beside it. */
    method DragOver(chain: seq<Node>)
      requires Valid()
      modifies this`children
      ensures Valid()
      ensures children == DragOverResult(old(children), chain, draggable, elSort, elDragged, tagNames)
    {
      var i := 0;
      while i < |chain| && chain[i] !in draggable
        invariant 0 <= i <= |chain|
        invariant i > 0 && i < |chain| ==> Some(chain[i]) != elSort
        invariant OverTarget(chain, draggable, elSort) == OverTarget(chain[i..], draggable, elSort)
      {
        assert chain[i..][1..] == chain[i + 1..];
        i := i + 1;
        if i < |chain| && Some(chain[i]) == elSort {
          assert OverTarget(chain, draggable, elSort).None?;
          return;
        }
      }
      if i == |chain| {
        return;
      }
      var target := chain[i];
      if Some(target) != elSort && Some(target) != elDragged && Some(target.tag) == tagNames {
        if elDragged.Some? && elDragged.value in children && target in children {
          var dragged := elDragged.value;
          var d, t := IndexOf(children, dragged), IndexOf(children, target);
          BranchesAreMoved(children, d, t);
          MovedDistinct(children, d, t);
          if t + 1 < |children| && children[t + 1] == dragged {
            children := InsertBefore(children, dragged, target);
          } else if t + 1 < |children| {
            children := InsertBefore(children, dragged, children[t + 1]);
          } else {
            children := AppendChild(children, dragged);
          }
        }
      }
    }

    /** `_dragEnd` (sortable.js:190-195): calls the callback, when there is
        one, with the dragged element, the children and the container. */
    method DragEnd() returns (call: Option<Invocation>)
      ensures callback.None? ==> call.None?
      ensures callback.Some? ==> call == Some(Invocation(callback.value, elDragged, children, elSort))
    {
      if callback.Some? {
        return Some(Invocation(callback.value, elDragged, children, elSort));
      }
      return None;
    }
  }
}
