/**
 * The worked example of the program's header comment: eight pages
 *
 *   p.001 1 title ※note        p.005 2 title ※note ❶2.1 title
 *   p.002 ❶1.1 title           p.006 ❶2.2 title ❶2.3 title
 *   p.003 ❷1.1.1 title         p.007 3 title ⓿4 title
 *   p.004                      p.008
 *
 * whose labels carry the nine bookmarks below; the builder nests them into
 * four top-level items.
 */
module Example {
  import opened Labels
  import opened Outlines

  /** The bookmarks the labels of the eight example stems carry, page by page (pages are 0-based). */
  const ExampleBookmarks: seq<Bookmark> := [
    Bookmark(0, "1 title", 0), Bookmark(1, "1.1 title", 1), Bookmark(2, "1.1.1 title", 2),
    Bookmark(0, "2 title", 4), Bookmark(1, "2.1 title", 4), Bookmark(1, "2.2 title", 5), Bookmark(1, "2.3 title", 5),
    Bookmark(0, "3 title", 6), Bookmark(0, "4 title", 6)]

  /** The listing the outline of the example must have. */
  const ExampleEntries: seq<Entry> := [
    Entry("1 title", 0, 0), Entry("1.1 title", 1, 1), Entry("1.1.1 title", 2, 2),
    Entry("2 title", 4, 0), Entry("2.1 title", 4, 1), Entry("2.2 title", 5, 1), Entry("2.3 title", 5, 1),
    Entry("3 title", 6, 0), Entry("4 title", 6, 0)]

  /** The outline the header comment describes. */
  const ExampleOutline: seq<OutlineItem> := [
    OutlineItem("1 title", 0, [OutlineItem("1.1 title", 1, [OutlineItem("1.1.1 title", 2, [])])]),
    OutlineItem("2 title", 4, [OutlineItem("2.1 title", 4, []), OutlineItem("2.2 title", 5, []), OutlineItem("2.3 title", 5, [])]),
    OutlineItem("3 title", 6, []),
    OutlineItem("4 title", 6, [])]

  /** The example's raw levels never rise by more than one, so every bookmark is placed at its raw level. */
  lemma ExampleDepths()
    ensures Depths(Levels(ExampleBookmarks)) == [0, 1, 2, 0, 1, 1, 1, 0, 0]
  {
    var raws := Levels(ExampleBookmarks);
    assert raws == [0, 1, 2, 0, 1, 1, 1, 0, 0];
    DepthsOfWellNested(raws);
  }

  lemma ExampleAnnotated()
    ensures Annotate(ExampleBookmarks, Depths(Levels(ExampleBookmarks))) == ExampleEntries
  {
    ExampleDepths();
  }

  /** The listing of the first top-level item of the example and its nested children. */
  lemma ExampleFirstItem()
    ensures Flatten([ExampleOutline[0]], TopDepth) == ExampleEntries[..3]
  {
    var c := ExampleOutline[0].children;
    assert Flatten(c[0].children, 2) == [ExampleEntries[2]];
    assert Flatten(c, 1) == ExampleEntries[1..3];
  }

  /** The listing of the second top-level item of the example and its three children. */
  lemma ExampleSecondItem()
    ensures Flatten([ExampleOutline[1]], TopDepth) == ExampleEntries[3..7]
  {
    var c := ExampleOutline[1].children;
    FlattenAppend(c[..2], c[2..], 1);
    assert c[..2][..1] == [c[0]];
    assert Flatten(c[..2], 1) == ExampleEntries[4..6];
    assert c[..2] + c[2..] == c;
  }

  /** The listing of the example outline, put together item by item. */
  lemma ExampleFlattened()
    ensures Flatten(ExampleOutline, TopDepth) == ExampleEntries
  {
    var t, es := ExampleOutline, ExampleEntries;
    ExampleFirstItem();
    ExampleSecondItem();
    assert Flatten(t[2..], TopDepth) == es[7..] by {
      assert t[2..][..1] == [t[2]];
    }
    FlattenAppend([t[0]], [t[1]], TopDepth);
    FlattenAppend([t[0]] + [t[1]], t[2..], TopDepth);
    assert [t[0]] + [t[1]] + t[2..] == t;
    assert es[..3] + es[3..7] + es[7..] == es;
  }

  /** Whatever the builder returns for the example bookmarks is the outline of the header comment. */
  lemma ExampleBuilt(outlines: seq<OutlineItem>)
    requires Flatten(outlines, TopDepth) == Annotate(ExampleBookmarks, Depths(Levels(ExampleBookmarks)))
    ensures outlines == ExampleOutline
  {
    ExampleAnnotated();
    ExampleFlattened();
    FlattenInjective(outlines, ExampleOutline, TopDepth);
  }
}
