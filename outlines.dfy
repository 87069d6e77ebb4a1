/**
 * The outline tree builder (the second half of `Images2Pdf.generate_outlines`):
 * from the flat bookmark list to the nested outline of the PDF.
 *
 * The builder keeps a stack of open children lists (`level_item_list`), whose
 * bottom is the result list `outlines` and each of whose higher entries is the
 * children list of the last item of the entry below it. A rise of the raw level
 * descends exactly one level, pushing the previous item's children list; a fall
 * by `d` climbs to `max(0, level - d)`, dropping the lists above; every item is
 * appended to the list on top.
 *
 * In the source the lists on the stack are shared with the items that own them.
 * Here the stack is a sequence of frames (a zipper): a frame above the bottom
 * holds the children of the last item of the frame below it, and `Close` puts
 * the frames back together into the tree they stand for.
 */
module Outlines {
  import opened Wrappers
  import opened Labels

  /** An outline item (a `pikepdf.OutlineItem`): its title, its destination page and its children. */
  datatype OutlineItem = OutlineItem(title: string, page: nat, children: seq<OutlineItem>)

  /** One line of the indented listing of an outline: title, destination page and depth. */
  datatype Entry = Entry(title: string, page: nat, depth: nat)

  /** The depth of the items of the outline's own list. */
  const TopDepth: nat := 0

  /** The pre-order listing of the items `items`, which sit at depth `depth`. */
  function Flatten(items: seq<OutlineItem>, depth: nat): seq<Entry>
  {
    if items == [] then []
    else
      var last := items[|items| - 1];
      Flatten(items[..|items| - 1], depth) + [Entry(last.title, last.page, depth)] + Flatten(last.children, depth + 1)
  }

  /** The listing of two lists of items, one after the other, is their two listings one after the other. */
  lemma {:induction false} FlattenAppend(x: seq<OutlineItem>, y: seq<OutlineItem>, depth: nat)
    ensures Flatten(x + y, depth) == Flatten(x, depth) + Flatten(y, depth)
    decreases |y|
  {
    if y == [] {
      assert x + y == x;
    } else {
      var init, last := y[..|y| - 1], y[|y| - 1];
      FlattenAppend(x, init, depth);
      assert (x + y)[..|x + y| - 1] == x + init;
      assert (x + y)[|x + y| - 1] == last;
    }
  }

  // ---------------------------------------------------------------------------
  // The listing determines the outline
  // ---------------------------------------------------------------------------

  /** Every entry of the listing of items at depth `depth` is at that depth or deeper. */
  lemma {:induction false} FlattenDepths(items: seq<OutlineItem>, depth: nat)
    ensures forall k :: 0 <= k < |Flatten(items, depth)| ==> Flatten(items, depth)[k].depth >= depth
  {
    if items != [] {
      var last := items[|items| - 1];
      FlattenDepths(items[..|items| - 1], depth);
      FlattenDepths(last.children, depth + 1);
    }
  }

  /** The position of the last entry of `es` at depth `depth`, if there is one. */
  function LastAtDepth(es: seq<Entry>, depth: nat): (j: Option<nat>)
    ensures j.Some? ==> j.value < |es| && es[j.value].depth == depth
    ensures j.Some? ==> forall k :: j.value < k < |es| ==> es[k].depth != depth
    ensures j.None? ==> forall k :: 0 <= k < |es| ==> es[k].depth != depth
  {
    if es == [] then None
    else if es[|es| - 1].depth == depth then Some(|es| - 1)
    else LastAtDepth(es[..|es| - 1], depth)
  }

  /**
   * The outline a listing describes: the last entry at depth `depth` is the
   * last item of the list, the entries after it are its children, and the
   * entries before it describe the items before it.
   */
  function Unflatten(es: seq<Entry>, depth: nat): seq<OutlineItem>
    decreases |es|
  {
    match LastAtDepth(es, depth)
    case None => []
    case Some(j) =>
      Unflatten(es[..j], depth) + [OutlineItem(es[j].title, es[j].page, Unflatten(es[j + 1..], depth + 1))]
  }

  /** `Unflatten` where the last entry at depth `depth` is known to be at position `j`. */
  lemma UnflattenAt(es: seq<Entry>, depth: nat, j: nat)
    requires LastAtDepth(es, depth) == Some(j)
    ensures j < |es|
    ensures Unflatten(es, depth) == Unflatten(es[..j], depth) + [OutlineItem(es[j].title, es[j].page, Unflatten(es[j + 1..], depth + 1))]
  {
  }

  /** The last entry at a depth is found before a tail of deeper entries. */
  lemma LastAtDepthBeforeDeeper(a: seq<Entry>, e: Entry, c: seq<Entry>, depth: nat)
    requires e.depth == depth
    requires forall k :: 0 <= k < |c| ==> c[k].depth > depth
    ensures LastAtDepth(a + [e] + c, depth) == Some(|a|)
  {
    var es := a + [e] + c;
    assert es[|a|] == e;
    assert forall k :: |a| < k < |es| ==> es[k] == c[k - |a| - 1];
  }

  /** A listing made of `a`, then an entry at depth `depth`, then entries deeper than `depth`, unflattens to the items of `a` and one more item whose children the deeper entries describe. */
  lemma UnflattenLast(a: seq<Entry>, e: Entry, c: seq<Entry>, depth: nat)
    requires e.depth == depth
    requires forall k :: 0 <= k < |c| ==> c[k].depth > depth
    ensures Unflatten(a + [e] + c, depth) == Unflatten(a, depth) + [OutlineItem(e.title, e.page, Unflatten(c, depth + 1))]
  {
    var es := a + [e] + c;
    LastAtDepthBeforeDeeper(a, e, c, depth);
    UnflattenAt(es, depth, |a|);
    assert es[..|a|] == a;
    assert es[|a|] == e;
    assert es[|a| + 1..] == c;
  }

  /** A non-empty list is its items before the last one, then the last one. */
  lemma SplitLast(items: seq<OutlineItem>)
    requires items != []
    ensures items == items[..|items| - 1] + [items[|items| - 1]]
  {
  }

  /** One step of `UnflattenFlatten`: from the items before the last one and the last one's children to the whole list. */
  lemma UnflattenFlattenStep(items: seq<OutlineItem>, depth: nat)
    requires items != []
    requires Unflatten(Flatten(items[..|items| - 1], depth), depth) == items[..|items| - 1]
    requires Unflatten(Flatten(items[|items| - 1].children, depth + 1), depth + 1) == items[|items| - 1].children
    ensures Unflatten(Flatten(items, depth), depth) == items
  {
    var n := |items| - 1;
    var last := items[n];
    var a, c := Flatten(items[..n], depth), Flatten(last.children, depth + 1);
    assert Flatten(items, depth) == a + [Entry(last.title, last.page, depth)] + c;
    FlattenDepths(last.children, depth + 1);
    UnflattenLast(a, Entry(last.title, last.page, depth), c, depth);
    SplitLast(items);
  }

  /** `Unflatten` undoes `Flatten`: the listing of an outline gives back the outline. */
  lemma {:induction false} UnflattenFlatten(items: seq<OutlineItem>, depth: nat)
    ensures Unflatten(Flatten(items, depth), depth) == items
  {
    if items != [] {
      UnflattenFlatten(items[..|items| - 1], depth);
      UnflattenFlatten(items[|items| - 1].children, depth + 1);
      UnflattenFlattenStep(items, depth);
    }
  }

  /** Two outlines with the same listing are the same outline. */
  lemma FlattenInjective(x: seq<OutlineItem>, y: seq<OutlineItem>, depth: nat)
    ensures Flatten(x, depth) == Flatten(y, depth) ==> x == y
  {
    UnflattenFlatten(x, depth);
    UnflattenFlatten(y, depth);
  }

  // ---------------------------------------------------------------------------
  // The depth each bookmark is placed at
  // ---------------------------------------------------------------------------

  /**
   * The depth of a bookmark of raw level `raw` that follows one of raw level
   * `oldRaw` placed at depth `oldDepth`: one deeper after any rise, however
   * large; `oldRaw - raw` shallower after a fall, but never above the top
   * level; the same depth when the raw levels are equal.
   */
  function NextDepth(oldRaw: nat, oldDepth: nat, raw: nat): (d: nat)
    ensures d <= oldDepth + 1
    ensures d == oldDepth + 1 <==> oldRaw < raw
    ensures raw == oldRaw ==> d == oldDepth
  {
    if oldRaw < raw then oldDepth + 1
    else if raw < oldRaw then (if oldDepth < oldRaw - raw then 0 else oldDepth - (oldRaw - raw))
    else oldDepth
  }

  /** The depths the builder gives a run of bookmarks with raw levels `raws`: the first at the top level, each next one by `NextDepth`. */
  function Depths(raws: seq<nat>): (ds: seq<nat>)
    ensures |ds| == |raws|
    ensures raws != [] ==> ds[0] == 0
  {
    if raws == [] then []
    else if |raws| == 1 then [0]
    else
      var prev := Depths(raws[..|raws| - 1]);
      prev + [NextDepth(raws[|raws| - 2], prev[|prev| - 1], raws[|raws| - 1])]
  }

  /** The raw levels of a bookmark list. */
  function Levels(bookmarks: seq<Bookmark>): (raws: seq<nat>)
    ensures |raws| == |bookmarks|
    ensures forall i :: 0 <= i < |raws| ==> raws[i] == bookmarks[i].level
  {
    if bookmarks == [] then [] else Levels(bookmarks[..|bookmarks| - 1]) + [bookmarks[|bookmarks| - 1].level]
  }

  /** The listing the outline of `bookmarks` must have when they are placed at depths `ds`: each bookmark's name and page at its depth, in order. */
  function Annotate(bookmarks: seq<Bookmark>, ds: seq<nat>): (es: seq<Entry>)
    requires |ds| == |bookmarks|
    ensures |es| == |bookmarks|
    ensures forall i :: 0 <= i < |es| ==> es[i] == Entry(bookmarks[i].name, bookmarks[i].page, ds[i])
  {
    if bookmarks == [] then []
    else
      var n := |bookmarks| - 1;
      Annotate(bookmarks[..n], ds[..n]) + [Entry(bookmarks[n].name, bookmarks[n].page, ds[n])]
  }

  /** Annotating one more bookmark adds its one entry at the end. */
  lemma AnnotateNext(bookmarks: seq<Bookmark>, ds: seq<nat>, i: nat)
    requires |ds| == |bookmarks| && i < |bookmarks|
    ensures Annotate(bookmarks[..i + 1], ds[..i + 1])
         == Annotate(bookmarks[..i], ds[..i]) + [Entry(bookmarks[i].name, bookmarks[i].page, ds[i])]
  {
    assert bookmarks[..i + 1][..i] == bookmarks[..i];
    assert ds[..i + 1][..i] == ds[..i];
  }

  /** The depths of a prefix are the prefix of the depths: a bookmark's depth depends only on those before it. */
  lemma {:induction false} DepthsPrefix(raws: seq<nat>, n: nat)
    requires n <= |raws|
    ensures Depths(raws[..n]) == Depths(raws)[..n]
    decreases |raws|
  {
    if n < |raws| && |raws| > 1 {
      var init := raws[..|raws| - 1];
      DepthsPrefix(init, n);
      assert init[..n] == raws[..n];
    } else if n == |raws| {
      assert raws[..n] == raws;
    }
  }

  /** The depth rules, bookmark by bookmark: the first at the top level, each other one by `NextDepth` from the one before it. */
  lemma DepthRules(raws: seq<nat>, i: nat)
    requires 0 < i < |raws|
    ensures Depths(raws)[0] == 0
    ensures Depths(raws)[i] == NextDepth(raws[i - 1], Depths(raws)[i - 1], raws[i])
  {
    var p, prev := raws[..i + 1], Depths(raws[..i]);
    assert Depths(p) == prev + [NextDepth(raws[i - 1], prev[i - 1], raws[i])] by {
      assert |p| - 1 == i && |p| - 2 == i - 1 && |prev| - 1 == i - 1;
      assert p[..|p| - 1] == raws[..i];
    }
    DepthsPrefix(raws, i + 1);
    DepthsPrefix(raws, i);
    assert Depths(raws)[i - 1] == prev[i - 1];
  }

  /** A bookmark is never placed deeper than one below the bookmark before it. */
  lemma DepthStep(raws: seq<nat>, i: nat)
    requires 0 < i < |raws|
    ensures Depths(raws)[i] <= Depths(raws)[i - 1] + 1
  {
    DepthRules(raws, i);
  }

  /** A bookmark is never placed deeper than its raw level. */
  lemma {:induction false} DepthAtMostLevel(raws: seq<nat>, i: nat)
    requires i < |raws|
    ensures Depths(raws)[i] <= raws[i]
  {
    if i > 0 {
      DepthRules(raws, i);
      DepthAtMostLevel(raws, i - 1);
    }
  }

  /** When the raw levels start at 0 and never rise by more than one at a time, every bookmark is placed at its raw level. */
  lemma {:induction false} DepthsOfWellNested(raws: seq<nat>)
    requires raws != [] ==> raws[0] == 0
    requires forall i :: 0 < i < |raws| ==> raws[i] <= raws[i - 1] + 1
    ensures Depths(raws) == raws
  {
    forall i | 0 <= i < |raws| ensures Depths(raws)[i] == raws[i] {
      DepthAtLevel(raws, i);
    }
  }

  lemma {:induction false} DepthAtLevel(raws: seq<nat>, i: nat)
    requires i < |raws|
    requires raws[0] == 0
    requires forall k :: 0 < k < |raws| ==> raws[k] <= raws[k - 1] + 1
    ensures Depths(raws)[i] == raws[i]
  {
    if i > 0 {
      DepthRules(raws, i);
      DepthAtLevel(raws, i - 1);
    }
  }

  // ---------------------------------------------------------------------------
  // The stack of open children lists, as frames
  // ---------------------------------------------------------------------------

  /** Frames as the builder's stack holds them: every frame below the top has an item whose children the frame above holds. */
  predicate IsStack(fs: seq<seq<OutlineItem>>) {
    fs != [] && forall k :: 0 <= k < |fs| - 1 ==> fs[k] != []
  }

  /** The list `f` with the children of its last item replaced by `kids`. */
  function Attach(f: seq<OutlineItem>, kids: seq<OutlineItem>): (g: seq<OutlineItem>)
    requires f != []
    ensures |g| == |f|
  {
    f[..|f| - 1] + [f[|f| - 1].(children := kids)]
  }

  /** The outline a stack of frames stands for: each frame hung under the last item of the frame below it. */
  function Close(fs: seq<seq<OutlineItem>>): seq<OutlineItem>
    requires IsStack(fs)
    decreases |fs|
  {
    if |fs| == 1 then fs[0] else Attach(fs[0], Close(fs[1..]))
  }

  /** The stack after `del level_item_list[-k:]`: the top `k` frames folded into the last item of the frame that becomes the top. */
  function Unwind(fs: seq<seq<OutlineItem>>, k: nat): (gs: seq<seq<OutlineItem>>)
    requires IsStack(fs) && k < |fs|
    ensures IsStack(gs) && |gs| == |fs| - k
  {
    var n := |fs| - k;
    fs[..n - 1] + [Close(fs[n - 1..])]
  }

  /** The listing of a list whose last item's children are replaced. */
  lemma FlattenAttach(f: seq<OutlineItem>, kids: seq<OutlineItem>, depth: nat)
    requires f != []
    ensures Flatten(Attach(f, kids), depth)
         == Flatten(f[..|f| - 1], depth) + [Entry(f[|f| - 1].title, f[|f| - 1].page, depth)] + Flatten(kids, depth + 1)
  {
    var g := Attach(f, kids);
    assert g[..|g| - 1] == f[..|f| - 1];
  }

  /** Closing the frames above a prefix first, then the rest, gives the same outline as closing them all at once. */
  lemma {:induction false} CloseNested(a: seq<seq<OutlineItem>>, b: seq<seq<OutlineItem>>)
    requires a != [] && IsStack(a + b) && b != []
    ensures IsStack(b) && IsStack(a + [Close(b)])
    ensures Close(a + [Close(b)]) == Close(a + b)
    decreases |a|
  {
    assert forall k :: 0 <= k < |b| - 1 ==> b[k] == (a + b)[|a| + k];
    assert forall k :: 0 <= k < |a| ==> a[k] == (a + b)[k];
    if |a| > 1 {
      assert (a + [Close(b)])[1..] == a[1..] + [Close(b)];
      assert (a + b)[1..] == a[1..] + b;
      CloseNested(a[1..], b);
    } else {
      assert (a + b)[1..] == b;
    }
  }

  /** A stack cut in two and put back together is the same stack. */
  lemma SplitFrames(fs: seq<seq<OutlineItem>>, m: nat)
    requires m <= |fs|
    ensures fs[..m] + fs[m..] == fs
    ensures m == 0 ==> fs[m..] == fs && fs[..m] == []
  {
  }

  /** Folding the top frames into the frame below them does not change the outline. */
  lemma UnwindKeepsOutline(fs: seq<seq<OutlineItem>>, k: nat)
    requires IsStack(fs) && k < |fs|
    ensures Close(Unwind(fs, k)) == Close(fs)
  {
    var n := |fs| - k;
    var a, b := fs[..n - 1], fs[n - 1..];
    SplitFrames(fs, n - 1);
    if n == 1 {
      assert Unwind(fs, k) == [Close(fs)];
    } else {
      CloseNested(a, b);
    }
  }

  /** Pushing the (still empty) children list of the last item on top does not change the outline. */
  lemma {:induction false} PushKeepsOutline(fs: seq<seq<OutlineItem>>)
    requires IsStack(fs) && fs[|fs| - 1] != []
    requires fs[|fs| - 1][|fs[|fs| - 1]| - 1].children == []
    ensures IsStack(fs + [[]])
    ensures Close(fs + [[]]) == Close(fs)
    decreases |fs|
  {
    var top := fs[|fs| - 1];
    if |fs| == 1 {
      assert (fs + [[]])[1..] == [[]];
      SplitLast(top);
    } else {
      assert (fs + [[]])[1..] == fs[1..] + [[]];
      PushKeepsOutline(fs[1..]);
    }
  }

  /** The stack after `level_item_list[level].append(item)` with `level` the top: `item` added at the end of the top frame. */
  function AppendTop(fs: seq<seq<OutlineItem>>, item: OutlineItem): (gs: seq<seq<OutlineItem>>)
    requires IsStack(fs)
    ensures IsStack(gs) && |gs| == |fs|
    ensures gs[|gs| - 1] == fs[|fs| - 1] + [item]
  {
    fs[|fs| - 1 := fs[|fs| - 1] + [item]]
  }

  /** Appending a childless item to a list appends its one entry to the listing. */
  lemma FlattenAppendLeaf(f: seq<OutlineItem>, item: OutlineItem, depth: nat)
    requires item.children == []
    ensures Flatten(f + [item], depth) == Flatten(f, depth) + [Entry(item.title, item.page, depth)]
  {
    var g := f + [item];
    assert g[..|g| - 1] == f;
    assert Flatten(item.children, depth + 1) == [];
  }

  /** The listing of a stack of more than one frame: the bottom frame's items and then, one deeper, the listing of the frames above it. */
  lemma FlattenCloseStep(fs: seq<seq<OutlineItem>>, depth: nat)
    requires IsStack(fs) && |fs| > 1
    ensures IsStack(fs[1..])
    ensures Flatten(Close(fs), depth)
         == Flatten(fs[0][..|fs[0]| - 1], depth) + [Entry(fs[0][|fs[0]| - 1].title, fs[0][|fs[0]| - 1].page, depth)]
          + Flatten(Close(fs[1..]), depth + 1)
  {
    FlattenAttach(fs[0], Close(fs[1..]), depth);
  }

  /** Below the top, `AppendTop` leaves the bottom frame alone and appends to the frames above it. */
  lemma AppendTopStep(fs: seq<seq<OutlineItem>>, item: OutlineItem)
    requires IsStack(fs) && |fs| > 1
    ensures IsStack(fs[1..])
    ensures AppendTop(fs, item)[0] == fs[0]
    ensures AppendTop(fs, item)[1..] == AppendTop(fs[1..], item)
  {
    var gs := AppendTop(fs, item);
    assert gs[1..] == AppendTop(fs[1..], item);
  }

  /** Appending `item` to the top frame of `fs` appends exactly the entry `e` to the listing of the outline, whose items sit at depth `depth`. */
  predicate GainsEntry(fs: seq<seq<OutlineItem>>, item: OutlineItem, depth: nat, e: Entry)
    requires IsStack(fs)
  {
    Flatten(Close(AppendTop(fs, item)), depth) == Flatten(Close(fs), depth) + [e]
  }

  /** `AppendOnTop` for a single frame. */
  lemma AppendOnTopBase(fs: seq<seq<OutlineItem>>, item: OutlineItem, depth: nat)
    requires IsStack(fs) && |fs| == 1 && item.children == []
    ensures GainsEntry(fs, item, depth, Entry(item.title, item.page, depth))
  {
    assert AppendTop(fs, item) == [fs[0] + [item]];
    FlattenAppendLeaf(fs[0], item, depth);
  }

  /** `AppendOnTop` for a stack of several frames, from `AppendOnTop` for the frames above the bottom one. */
  lemma AppendOnTopStep(fs: seq<seq<OutlineItem>>, item: OutlineItem, depth: nat, e: Entry)
    requires IsStack(fs) && |fs| > 1 && IsStack(fs[1..])
    requires GainsEntry(fs[1..], item, depth + 1, e)
    ensures GainsEntry(fs, item, depth, e)
  {
    var gs := AppendTop(fs, item);
    AppendTopStep(fs, item);
    FlattenCloseStep(fs, depth);
    FlattenCloseStep(gs, depth);
  }

  /** Appending a childless item to the top frame appends its one entry, at the depth `top` of the top frame, to the listing. */
  lemma {:induction false} AppendOnTop(fs: seq<seq<OutlineItem>>, item: OutlineItem, depth: nat, top: nat)
    requires IsStack(fs) && item.children == [] && top == depth + |fs| - 1
    ensures GainsEntry(fs, item, depth, Entry(item.title, item.page, top))
    decreases |fs|
  {
    if |fs| == 1 {
      assert top == depth;
      AppendOnTopBase(fs, item, depth);
    } else {
      assert IsStack(fs[1..]);
      AppendOnTop(fs[1..], item, depth + 1, top);
      AppendOnTopStep(fs, item, depth, Entry(item.title, item.page, top));
    }
  }

  /** `AppendOnTop` for the whole outline, whose top frame is at depth `level`. */
  lemma AppendAtLevel(fs: seq<seq<OutlineItem>>, item: OutlineItem, level: nat)
    requires IsStack(fs) && |fs| == level + 1 && item.children == []
    ensures Flatten(Close(AppendTop(fs, item)), TopDepth) == Flatten(Close(fs), TopDepth) + [Entry(item.title, item.page, level)]
  {
    AppendOnTop(fs, item, TopDepth, level);
  }

  // ---------------------------------------------------------------------------
  // The builder
  // ---------------------------------------------------------------------------

  /**
   * The first part of one pass of the builder's loop: the depth of a bookmark of
   * raw level `rawLevel`, given the raw level and depth of the bookmark before it
   * (`oldRawLevel` is `None` for the first bookmark), and the stack trimmed or
   * extended so that its top frame is the list the bookmark goes into. The stack
   * still stands for the same outline.
   */
  method ResolveLevel(levelItemList: seq<seq<OutlineItem>>, oldRawLevel: Option<nat>, oldLevel: nat, oldItem: OutlineItem, rawLevel: nat)
    returns (stack: seq<seq<OutlineItem>>, level: nat)
    requires IsStack(levelItemList)
    requires oldRawLevel.None? ==> levelItemList == [[]]
    requires oldRawLevel.Some? ==> |levelItemList| == oldLevel + 1
    requires oldRawLevel.Some? ==> var top := levelItemList[oldLevel]; top != [] && oldItem == top[|top| - 1] && oldItem.children == []
    ensures level == (if oldRawLevel.None? then 0 else NextDepth(oldRawLevel.value, oldLevel, rawLevel))
    ensures IsStack(stack) && |stack| == level + 1
    ensures Close(stack) == Close(levelItemList)
  {
    stack := levelItemList;
    var depth: int := oldLevel;
    if oldRawLevel.None? {
      depth := 0;
    } else if oldRawLevel.value < rawLevel {
      depth := oldLevel + 1;
      PushKeepsOutline(stack);
      stack := stack + [oldItem.children];
    } else if rawLevel < oldRawLevel.value {
      depth := if 0 < depth - (oldRawLevel.value - rawLevel) then depth - (oldRawLevel.value - rawLevel) else 0;
      if depth < oldLevel {
        UnwindKeepsOutline(stack, oldLevel - depth);
        stack := Unwind(stack, oldLevel - depth);
      }
    } else {
      depth := oldLevel;
    }
    level := depth;
  }

  /**
   * One pass of the builder's loop: the bookmark `bookmark` placed on the stack
   * `levelItemList` at the depth `ResolveLevel` gives it. Returns the new stack,
   * that depth and the bookmark's item, which lands at the end of the top frame,
   * so the listing gains exactly its one entry.
   */
  method PlaceBookmark(levelItemList: seq<seq<OutlineItem>>, oldRawLevel: Option<nat>, oldLevel: nat, oldItem: OutlineItem, bookmark: Bookmark)
    returns (stack: seq<seq<OutlineItem>>, level: nat, item: OutlineItem)
    requires IsStack(levelItemList)
    requires oldRawLevel.None? ==> levelItemList == [[]]
    requires oldRawLevel.Some? ==> |levelItemList| == oldLevel + 1
    requires oldRawLevel.Some? ==> var top := levelItemList[oldLevel]; top != [] && oldItem == top[|top| - 1] && oldItem.children == []
    ensures level == (if oldRawLevel.None? then 0 else NextDepth(oldRawLevel.value, oldLevel, bookmark.level))
    ensures item == OutlineItem(bookmark.name, bookmark.page, [])
    ensures IsStack(stack) && |stack| == level + 1
    ensures var top := stack[level]; top != [] && item == top[|top| - 1]
    ensures Flatten(Close(stack), TopDepth) == Flatten(Close(levelItemList), TopDepth) + [Entry(bookmark.name, bookmark.page, level)]
  {
    item := OutlineItem(bookmark.name, bookmark.page, []);
    stack, level := ResolveLevel(levelItemList, oldRawLevel, oldLevel, oldItem, bookmark.level);
    AppendAtLevel(stack, item, level);
    stack := AppendTop(stack, item);
  }

  /** The builder's loop invariant: the outline the stack stands for lists the first `n` bookmarks, each at its depth in `ds`. */
  predicate Listed(stack: seq<seq<OutlineItem>>, bookmarks: seq<Bookmark>, ds: seq<nat>, n: nat)
    requires IsStack(stack) && |ds| == |bookmarks| && n <= |bookmarks|
  {
    Flatten(Close(stack), TopDepth) == Annotate(bookmarks[..n], ds[..n])
  }

  /** The invariant holds for the empty stack and no bookmarks. */
  lemma ListedNone(bookmarks: seq<Bookmark>, ds: seq<nat>)
    requires |ds| == |bookmarks|
    ensures Listed([[]], bookmarks, ds, 0)
  {
    assert Close([[]]) == [];
  }

  /** Placing the next bookmark at its depth keeps the invariant. */
  lemma ListedNext(before: seq<seq<OutlineItem>>, after: seq<seq<OutlineItem>>, bookmarks: seq<Bookmark>, ds: seq<nat>, i: nat, level: nat)
    requires IsStack(before) && IsStack(after) && |ds| == |bookmarks| && i < |bookmarks|
    requires Listed(before, bookmarks, ds, i)
    requires Flatten(Close(after), TopDepth) == Flatten(Close(before), TopDepth) + [Entry(bookmarks[i].name, bookmarks[i].page, level)]
    requires level == ds[i]
    ensures Listed(after, bookmarks, ds, i + 1)
  {
    AnnotateNext(bookmarks, ds, i);
  }

  /** Once every bookmark is placed, the outline lists them all. */
  lemma ListedAll(stack: seq<seq<OutlineItem>>, bookmarks: seq<Bookmark>, ds: seq<nat>)
    requires IsStack(stack) && |ds| == |bookmarks|
    requires Listed(stack, bookmarks, ds, |bookmarks|)
    ensures Flatten(Close(stack), TopDepth) == Annotate(bookmarks, ds)
  {
    assert bookmarks[..|bookmarks|] == bookmarks;
    assert ds[..|bookmarks|] == ds;
  }

  /**
   * The outline of the bookmark list `bookmarks`, built as the source builds it.
   * Its pre-order listing is the bookmark list itself, in order, each bookmark
   * at the depth `Depths` gives it: every bookmark is placed exactly once, with
   * its own name and page.
   */
  method BuildOutlines(bookmarks: seq<Bookmark>) returns (outlines: seq<OutlineItem>)
    ensures Flatten(outlines, TopDepth) == Annotate(bookmarks, Depths(Levels(bookmarks)))
  {
    outlines := [];
    if 0 == |bookmarks| {
      return;
    }
    ghost var raws := Levels(bookmarks);
    ghost var ds := Depths(raws);
    var oldRawLevel: Option<nat> := None;
    var oldLevel: nat := 0;
    var oldItem := OutlineItem([], 0, []);
    var levelItemList: seq<seq<OutlineItem>> := [outlines];
    var i := 0;
    ListedNone(bookmarks, ds);
    while i < |bookmarks|
      invariant i <= |bookmarks|
      invariant IsStack(levelItemList)
      invariant i == 0 <==> oldRawLevel.None?
      invariant i == 0 ==> levelItemList == [[]]
      invariant i > 0 ==> oldRawLevel == Some(raws[i - 1]) && oldLevel == ds[i - 1] && |levelItemList| == oldLevel + 1
      invariant i > 0 ==> var top := levelItemList[oldLevel]; top != [] && oldItem == top[|top| - 1] && oldItem.children == []
      invariant Listed(levelItemList, bookmarks, ds, i)
    {
      ghost var before := levelItemList;
      var level, item;
      levelItemList, level, item := PlaceBookmark(levelItemList, oldRawLevel, oldLevel, oldItem, bookmarks[i]);
      assert level == ds[i] by {
        if i > 0 { DepthRules(raws, i); }
      }
      ListedNext(before, levelItemList, bookmarks, ds, i, level);
      oldRawLevel := Some(bookmarks[i].level);
      oldLevel := level;
      oldItem := item;
      i := i + 1;
    }
    outlines := Close(levelItemList);
    ListedAll(levelItemList, bookmarks, ds);
  }

  /** `generate_outlines`: the bookmarks of the pages whose stems are `stems`, in page order, built into an outline. */
  method GenerateOutlines(stems: seq<string>) returns (outlines: seq<OutlineItem>)
    ensures Flatten(outlines, TopDepth) == Annotate(CollectBookmarks(stems), Depths(Levels(CollectBookmarks(stems))))
  {
    var bookmarks := CollectBookmarks(stems);
    outlines := BuildOutlines(bookmarks);
  }
}
