# images2pdf outline generation, in Dafny

images2pdf turns a directory of page images into one PDF. Given `--outlines`,
it builds the PDF's table of contents from the page file names. A stem such as
`p.005 2 title ※note ❶2.1 title` holds a page field and then a label. The label
is cut at the sixteen level markers ⓿❶…⓯. Each piece gives a bookmark whose level
is its marker's position in the table (0 when it has none). The bookmark's name
is the text before the note mark ※, trimmed, and a piece with an empty name is
dropped. The builder then nests the flat bookmark list into an outline tree. A
rise of the raw level descends exactly one level, however large the rise. A fall
climbs back by the size of the fall, but never above the top level.

The model covers these parts of the program:

- **Tokenizer** (`Labels`, on `PyStr` and `Seqs`): pure functions.
  - `str.split(maxsplit=1)`, `str.strip()` and `str.split('※', 1)` are written
    out on `string`. Whitespace is the exact set of code points for which
    Python's `str.isspace` holds.
  - The regular expression `[M]?[^M]+` with `finditer` is a scan (`Segments`)
    that is proved to yield only matches of that pattern. The scan splits at
    every marker, and it loses no text except markers.
- **Outline builder** (`Outlines`): the loop of `generate_outlines` as a method
  with the source's own variables. It is proved against a specification
  function: the pre-order listing (`Flatten`) of the result is the bookmark list
  itself, in order, each bookmark at the depth the level rules give it.
  - `Flatten` is proved injective (`Unflatten` undoes it), so this listing
    determines the tree completely.
  - In the source, the stack `level_item_list` holds children lists shared with
    the items that own them. The model holds the stack as a sequence of frames
    and proves that every push, pop and append keeps or extends the outline
    the frames stand for.
  - `del level_item_list[-(old_level - level):]` never asks for more frames than
    the stack holds. The pop count is proved smaller than the stack size, so no
    defensive clamp is needed. On line 364 the name `level` still holds the
    previous bookmark's depth (`old_level`), and the model reads it that way.
- **Settings** (`Settings.Images2Pdf`): the configuration defaults and their
  type-checked setters, as a class with a `Valid` invariant. The invariant keeps
  the page layout and the reading direction inside their allowed lists.
- **Console reporter** (`Messages`): `MessagePrint`'s constructor checks and the
  rule for which of the normal, verbose and very-verbose messages a report shows.
- **identify parser** (`Identify`): the loop of `get_identify` over the output
  lines of ImageMagick `identify`, which reads each `key<TAB>value` line into a
  dictionary.
- **Worked example** (`Example`): the program's header comment. Its nine
  bookmarks are proved to build the four-item outline the comment describes.

## Model

| member | source | states |
|---|---|---|
| PyStr.LeadingSpace | images2pdf.py:332 | the count is the length of a whitespace run from position `k` that reaches the end or a non-blank |
| PyStr.TrailingSpace | images2pdf.py:344 | the count is the length of a whitespace run ending at position `k` that reaches the start or a non-blank |
| PyStr.FieldLength | images2pdf.py:332 | the count is the length of a non-whitespace run from position `k` that reaches the end or a blank |
| PyStr.LeadingSpaceIs | images2pdf.py:332 | any such whitespace run from `k` is the one `LeadingSpace` counts, so the count is unique |
| PyStr.TrailingSpaceIs | images2pdf.py:344 | any such whitespace run ending at `k` is the one `TrailingSpace` counts |
| PyStr.FieldLengthIs | images2pdf.py:332 | any such non-whitespace run from `k` is the one `FieldLength` counts |
| PyStr.Find | images2pdf.py:343 | the position is that of the first `c`, or the length when `s` has none |
| PyStr.Strip | images2pdf.py:344 | the result is empty exactly when `s` is all whitespace; otherwise it neither starts nor ends with whitespace |
| PyStr.StripSlice | images2pdf.py:344 | `strip` keeps the slice of `s` that starts after the leading whitespace |
| PyStr.StripTail | images2pdf.py:344 | only whitespace follows what `strip` keeps |
| PyStr.StripRemovesOnlyWhitespace | images2pdf.py:344 | `strip` removes whitespace at the two ends and nothing else |
| PyStr.LeadingSpaceOf | images2pdf.py:332 | the whitespace run after `a` in `a + w + b` is `w` when `w` is blank and `b` does not start with whitespace |
| PyStr.TrailingSpaceOf | images2pdf.py:344 | the trailing whitespace of `x + w` is `w` when `x` does not end with whitespace |
| PyStr.FieldLengthOf | images2pdf.py:332 | the field after `a` in `a + f + b` is `f` when `f` has no whitespace and `b` is empty or starts with whitespace |
| PyStr.StripOfPadded | images2pdf.py:344 | `strip` returns the text between two blank paddings exactly |
| PyStr.SplitOnce | images2pdf.py:332 | `split(maxsplit=1)` gives no part exactly for a blank string; otherwise a first field without whitespace and, when text follows, a second part that is a suffix of the string starting with a non-blank |
| PyStr.SplitOnceAt | images2pdf.py:332 | for a non-blank string, the parts are read off its leading blank run, the field after it and the blank run after that |
| PyStr.SplitOnceLayout | images2pdf.py:332 | the first part starts after the leading whitespace and runs to the next blank or the end; only whitespace follows a lone field; a non-empty whitespace run separates two parts, and the second runs to the end. Together with `SplitOnce`'s contract this fixes the result for every string |
| PyStr.SplitOnceOfFields | images2pdf.py:332 | blanks, a field, blanks and more text starting with a non-blank split into the field and that text |
| PyStr.SplitOnceOfField | images2pdf.py:332-333 | a single field between blanks splits into that field alone, so `len(split_filenames)` is 1 |
| PyStr.SplitFirst | images2pdf.py:343 | `split(sep, 1)` gives the string itself when `sep` is absent; otherwise the text before the first `sep` and the text after it, which rebuild the string |
| Seqs.MapAppend | images2pdf.py:335-346 | mapping over two runs of matches is mapping over each in turn |
| Seqs.ValuesAppend | images2pdf.py:345-346 | dropping the empty names of two runs is dropping them run by run |
| Seqs.ValuesFromSomes | images2pdf.py:345-346 | every kept value comes from a present entry |
| Seqs.ValuesOfSomes | images2pdf.py:345-346 | nothing is dropped from a list without empty entries |
| Labels.MarkerInTable | images2pdf.py:338 | the three code point ranges hold exactly the sixteen markers of the table |
| Labels.LevelOf | images2pdf.py:338-342 | a marker's level is its position in the table |
| Labels.BeforeNote | images2pdf.py:343 | the result is the prefix before the first ※, or all of the text when it has none |
| Labels.BeforeNoteOf | images2pdf.py:343 | text before a ※ and after none is what `split('※', 1)[0]` keeps |
| Labels.FindOf | images2pdf.py:343 | the first ※ of `a + x` sits right after `a` when `a` has none |
| Labels.RunLength | images2pdf.py:329 | the greedy `[^M]+` takes exactly the marker-free prefix |
| Labels.MatchLength | images2pdf.py:329 | no match starts exactly at a marker followed by a marker or by the end; a match otherwise runs up to the next marker |
| Labels.MatchIsSegment | images2pdf.py:329 | what is matched at the front is a match of `[M]?[^M]+` |
| Labels.Segments | images2pdf.py:329-334 | the scan yields at most one match per character of the label. `SegmentsAreMatches`, `SegmentsSplitAtMarker`, `SegmentsOfText`, `SegmentsOfMarkedText`, `LoneMarkerIgnored` and `SegmentsKeepText` pin down which matches these are |
| Labels.SegmentsAreMatches | images2pdf.py:329-335 | every piece `finditer` yields is a match of the pattern |
| Labels.RunLengthStopsAtMarker | images2pdf.py:329 | a marker ends the run of non-markers |
| Labels.RunLengthOfText | images2pdf.py:329 | marker-free text is one run |
| Labels.MatchLengthStopsAtMarker | images2pdf.py:329-334 | a marker after `a` does not change the match at its front |
| Labels.SkipStopsAtMarker | images2pdf.py:329-334 | where no match starts, the scan moves one character on, with or without a marker-led tail |
| Labels.MatchStopsAtMarker | images2pdf.py:329-334 | a match at the front of `a` is unchanged by a marker-led tail |
| Labels.SegmentsSplitAtMarker | images2pdf.py:329-334 | the matches of `a + b`, with `b` starting at a marker, are those of `a` then those of `b` |
| Labels.FirstMatchFromMarker | images2pdf.py:329-334 | scanning from a marker, the first match starts with a marker |
| Labels.LaterMatchesStartWithMarker | images2pdf.py:329-334 | every match but the first starts with a marker |
| Labels.SegmentsOfText | images2pdf.py:329-334 | marker-free text is one match, or none when empty |
| Labels.SegmentsOfMarkedText | images2pdf.py:329-334 | a marker then marker-free text is one match, or none when the text is empty |
| Labels.LoneMarkerIgnored | images2pdf.py:329-334 | a marker followed by a marker or by the end yields no match and disturbs no other |
| Labels.TextOf | images2pdf.py:329 | the non-marker characters of a text contain no marker |
| Labels.TextOfAppend | images2pdf.py:329 | the non-marker text of two texts is theirs in turn |
| Labels.SegmentsKeepText | images2pdf.py:329-334 | the matches together hold all the text except markers |
| Labels.NameIsSlice | images2pdf.py:343-344 | a name is a slice of its match text |
| Labels.NameHasNoNoteMark | images2pdf.py:343-344 | a name has no ※ in it |
| Labels.ParseSegment | images2pdf.py:336-346 | a token has a non-empty name and a level below 16: its leading marker's position in the table, or 0 without a marker. `ParseSegmentToken` states when a token is made and what its name is |
| Labels.ParseSegmentToken | images2pdf.py:336-346 | a match gives no token exactly when its text before ※ is blank; otherwise the level of its leading marker (0 without one) and that text stripped |
| Labels.MarkerTextOfSegment | images2pdf.py:336-342 | a match without its leading marker has no marker |
| Labels.SegmentTokenHasNoMarker | images2pdf.py:336-346 | the token of a match has a level below 16 and a non-empty, trimmed name without markers or ※ |
| Labels.ParseAll | images2pdf.py:335-346 | a list of matches gives at most one token per match |
| Labels.ParseAllTokens | images2pdf.py:335-346 | every token parsed from matches is a label token |
| Labels.ParseAllAppend | images2pdf.py:335-346 | the tokens of two runs of matches are those of each run in turn |
| Labels.Tokenize | images2pdf.py:334-346 | every token of a label has a level below 16 and a valid name |
| Labels.TokenizeSplitAtMarker | images2pdf.py:334-346 | a label split just before a marker tokenizes as its two halves |
| Labels.TokenizeText | images2pdf.py:334-346 | a label without markers is at most one level-0 token, named by its text before ※, trimmed |
| Labels.TokenizeMarked | images2pdf.py:334-346 | a marker then marker-free text is at most one token, at the marker's level |
| Labels.NoMarkersAppend | images2pdf.py:329 | two marker-free texts together have no marker |
| Labels.PaddedTitle | images2pdf.py:343-344 | a name followed by blanks has neither a marker nor a ※ |
| Labels.PlainToken | images2pdf.py:334-346 | a name with trailing blanks is one level-0 token carrying the name |
| Labels.NotedToken | images2pdf.py:334-346 | a name, blanks and a ※ note give one level-0 token without the note |
| Labels.MarkedToken | images2pdf.py:334-346 | a marker, a name and blanks give one token at the marker's level |
| Labels.MarkedName | images2pdf.py:334-346 | a marker and a name give one token at the marker's level |
| Labels.PageTokens | images2pdf.py:332-334 | a stem that splits into fewer than two parts gives no tokens; one that splits into two gives the tokens of the second part; every token is a label token |
| Labels.StemTokens | images2pdf.py:332-334 | blanks, a page field, blanks and a label starting with a non-blank give the label's tokens |
| Labels.OnPage | images2pdf.py:346 | each token becomes one bookmark with the page number, in order |
| Labels.Paginate | images2pdf.py:331-346 | every bookmark's page number is the index of one of the pages. `PaginateInOrder`, `PaginateTokens` and `PaginateOfPage` state the order and which bookmarks each page gets |
| Labels.PaginateInOrder | images2pdf.py:331-346 | every bookmark points at one of the pages, and the list is ordered by page |
| Labels.PaginateTokens | images2pdf.py:331-346 | numbering label tokens by page keeps them label tokens |
| Labels.PaginateOfPage | images2pdf.py:331-346 | the bookmarks of page `p` are exactly its tokens, in order |
| Labels.CollectBookmarks | images2pdf.py:330-346 | every bookmark's page number is the index of one of the stems. `CollectBookmarksInOrder` and `BookmarksOfPage` state the order and each page's bookmarks |
| Labels.CollectBookmarksInOrder | images2pdf.py:330-346 | every bookmark points into the book with a valid level and name, and the list is ordered by page |
| Labels.BookmarksOfPage | images2pdf.py:330-346 | the bookmarks of page `p` are exactly the tokens of its stem, in order |
| Labels.SingleFieldPageHasNoBookmarks | images2pdf.py:332-333 | a page whose stem is one field, such as `p.004`, has no bookmark |
| Outlines.FlattenAppend | images2pdf.py:348-374 | the listing of two item lists is their listings in turn |
| Outlines.FlattenDepths | images2pdf.py:348-374 | every entry of a listing at depth `d` is at depth `d` or deeper |
| Outlines.LastAtDepth | images2pdf.py:348-374 | the position found is that of the last entry at the depth, or there is none |
| Outlines.UnflattenAt | images2pdf.py:348-374 | the last entry at the depth is the last item, and the entries after it are its children |
| Outlines.LastAtDepthBeforeDeeper | images2pdf.py:348-374 | an entry followed only by deeper ones is the last at its depth |
| Outlines.UnflattenLast | images2pdf.py:348-374 | a listing ending in an entry and its deeper descendants unflattens to one more item with those children |
| Outlines.UnflattenFlattenStep | images2pdf.py:348-374 | the inductive step of the round trip |
| Outlines.UnflattenFlatten | images2pdf.py:348-374 | `Unflatten` undoes `Flatten`: a listing gives back its outline |
| Outlines.FlattenInjective | images2pdf.py:348-374 | two outlines with the same listing are the same outline |
| Outlines.NextDepth | images2pdf.py:358-368 | the next depth is at most one deeper; it is one deeper exactly after a rise of the raw level, and unchanged when the raw level is unchanged |
| Outlines.Depths | images2pdf.py:358-368 | there is one depth per bookmark, and the first is at the top level |
| Outlines.Levels | images2pdf.py:357 | the raw levels are the bookmarks' levels, in order |
| Outlines.Annotate | images2pdf.py:355-357 | the expected listing holds each bookmark's name and page at its depth, in order |
| Outlines.AnnotateNext | images2pdf.py:370 | one more bookmark adds its one entry at the end |
| Outlines.DepthsPrefix | images2pdf.py:355-373 | a bookmark's depth depends only on the bookmarks before it |
| Outlines.DepthRules | images2pdf.py:358-368 | the first bookmark is at the top level; each later one goes one deeper after a rise, climbs by the fall (not above 0) after a fall, and stays level otherwise |
| Outlines.DepthStep | images2pdf.py:360-361 | a bookmark is never more than one level deeper than the one before it |
| Outlines.DepthAtMostLevel | images2pdf.py:358-368 | a bookmark is never placed deeper than its raw level |
| Outlines.DepthsOfWellNested | images2pdf.py:358-368 | when levels start at 0 and rise by at most one, every bookmark sits at its raw level |
| Outlines.DepthAtLevel | images2pdf.py:358-368 | the same, bookmark by bookmark |
| Outlines.Attach | images2pdf.py:362 | replacing the last item's children keeps the list's length |
| Outlines.Unwind | images2pdf.py:365-366 | `del level_item_list[-k:]` leaves a well-formed stack `k` frames shorter |
| Outlines.FlattenAttach | images2pdf.py:362 | the listing of a list whose last item got new children |
| Outlines.CloseNested | images2pdf.py:365-366 | folding the top frames first gives the same outline as folding all at once |
| Outlines.UnwindKeepsOutline | images2pdf.py:363-366 | dropping frames off the stack does not change the outline |
| Outlines.PushKeepsOutline | images2pdf.py:360-362 | pushing the last item's children list does not change the outline |
| Outlines.AppendTop | images2pdf.py:370 | appending adds the item at the end of the top frame and keeps the stack well-formed |
| Outlines.FlattenAppendLeaf | images2pdf.py:370 | appending a childless item adds its one entry to the listing |
| Outlines.FlattenCloseStep | images2pdf.py:370 | the listing of a stack is the bottom frame's items, then one deeper the frames above |
| Outlines.AppendTopStep | images2pdf.py:370 | appending to the top leaves the bottom frame alone |
| Outlines.AppendOnTopBase | images2pdf.py:370 | appending to a one-frame stack adds one entry at its depth |
| Outlines.AppendOnTopStep | images2pdf.py:370 | the inductive step of `AppendOnTop` |
| Outlines.AppendOnTop | images2pdf.py:370 | appending to the top frame adds exactly the item's entry, at the top frame's depth |
| Outlines.AppendAtLevel | images2pdf.py:370 | `level_item_list[level].append(item)` adds exactly one entry at depth `level` to the outline's listing |
| Outlines.ResolveLevel | images2pdf.py:357-368 | the depth follows the level rules; the stack is trimmed or extended to `level + 1` frames and stands for the same outline |
| Outlines.PlaceBookmark | images2pdf.py:355-373 | one loop pass places the bookmark's childless item at the end of the top frame, so the outline gains exactly its entry at its depth |
| Outlines.ListedNone | images2pdf.py:348-354 | the loop invariant holds for the stack `[outlines]` before the loop |
| Outlines.ListedNext | images2pdf.py:370-373 | placing the next bookmark at its depth keeps the invariant |
| Outlines.ListedAll | images2pdf.py:374 | once all are placed, the outline lists every bookmark |
| Outlines.BuildOutlines | images2pdf.py:348-374 | the outline's listing is the bookmark list, in order, each bookmark once at its depth (empty for no bookmarks) |
| Outlines.GenerateOutlines | images2pdf.py:327-374 | `generate_outlines`: the outline of the bookmarks of the stems, in page order |
| Settings.CheckChoice | images2pdf.py:74-78 | a non-string raises `TypeError`, an unlisted string `ValueError`, both carrying the value; a listed string is accepted unchanged |
| Settings.ListedChoicesAccepted | images2pdf.py:81-99 | every listed page layout and direction is accepted, and `''` is listed in both |
| Settings.Images2Pdf.constructor | images2pdf.py:57-67 | the defaults: no layout, no direction, resample 0, every flag off, `dry_run` stored |
| Settings.Images2Pdf.SetDefaultPagelayout | images2pdf.py:73-79 | stores a listed layout, or reports the error and changes nothing; the other settings are unchanged |
| Settings.Images2Pdf.SetDefaultDirection | images2pdf.py:89-95 | stores a listed direction, or reports the error and changes nothing; the other settings are unchanged |
| Settings.Images2Pdf.SetDefaultResample | images2pdf.py:105-109 | stores any `int` (not a `bool`), or reports `TypeError` and changes nothing |
| Settings.Images2Pdf.SetDefaultOutlines | images2pdf.py:115-119 | stores any `bool`, or reports `TypeError` and changes nothing |
| Settings.Images2Pdf.SetDefaultLinearize | images2pdf.py:125-129 | stores any `bool`, or reports `TypeError` and changes nothing |
| Settings.Images2Pdf.SetDefaultObjectstream | images2pdf.py:135-139 | stores any `bool`, or reports `TypeError` and changes nothing |
| Settings.Images2Pdf.SetDefaultMetafile | images2pdf.py:145-149 | stores any `bool`, or reports `TypeError` and changes nothing |
| Messages.NewMessagePrint | images2pdf.py:382-388 | the arguments are checked in order, and the first non-`bool` raises `TypeError`; very-verbose mode is `verbose or vv` |
| Messages.ConstructedReachable | images2pdf.py:382-388 | every constructed reporter has verbose mode implying very-verbose mode; the defaults give the plain reporter |
| Messages.Select | images2pdf.py:399-411 | a quiet reporter shows nothing; anything shown is one of the given messages |
| Messages.SelectIsFirstAdmitted | images2pdf.py:399-411 | the message shown is the first given one, in the order very-verbose, verbose, normal, among those the mode admits |
| Messages.NormalAlwaysShown | images2pdf.py:400-411 | a reporter that is not quiet shows something whenever a normal message is given |
| Messages.VerboseShownInVvMode | images2pdf.py:402-409 | for a constructed reporter, the verbose message is shown exactly when very-verbose mode is on and no very-verbose message is given |
| Identify.LineEntry | images2pdf.py:434-438 | the key has no tab; with a tab, key, tab and value rebuild the line; a line without a tab is a key with an empty value |
| Identify.Table | images2pdf.py:432-439 | the dictionary has at most one entry per line. `TableKeys` and `TableLastWins` state its keys and values |
| Identify.ParseIdentify | images2pdf.py:432-439 | the loop builds the dictionary of the lines read in order |
| Identify.Keys | images2pdf.py:433-438 | the keys of the lines, one per line, in order |
| Identify.TableKeys | images2pdf.py:432-439 | the dictionary's keys are exactly the keys of the lines |
| Identify.TableLastWins | images2pdf.py:433-438 | a key takes the value of the last line that names it |
| Example.ExampleDepths | images2pdf.py:35-43 | the header example's bookmarks are each placed at their raw level |
| Example.ExampleAnnotated | images2pdf.py:35-43 | the listing the example's outline must have |
| Example.ExampleFirstItem | images2pdf.py:35-43 | the listing of the first item and its nested children |
| Example.ExampleSecondItem | images2pdf.py:35-43 | the listing of the second item and its three children |
| Example.ExampleFlattened | images2pdf.py:35-43 | the listing of the whole example outline |
| Example.ExampleBuilt | images2pdf.py:35-43 | whatever the builder returns for the example bookmarks is the four-item outline of the header comment |

## Left out

- Reading the image directory, `pathlib`'s `stem` and the sorting of the pages are not modelled. The input to `GenerateOutlines` is the list of stems in page order.
- `pikepdf.OutlineItem` and writing the PDF are not modelled. An item is a value holding its title, page and children.
- Sharing of children lists between `level_item_list` and the items that own them: the stack is a sequence of frames, and `Close` rebuilds the tree from them. Updates in place through the shared lists are not modelled.
- `BuildOutlines`: the loop body is split into `ResolveLevel` and `PlaceBookmark`, which hold the branch logic of lines 357-370.
- The remaining operations of `images2pdf.py` are out of scope: argument parsing, metafiles, page conversion with `mogrify`, resampling, PDF version and linearisation, grayscale detection and page assembly. All of them are external tools or I/O.
- `get_identify`: building the format string, running `identify` and `splitlines` are left out. The input to `ParseIdentify` is the list of lines.
- `MessagePrint.print` writes to standard output. `Select` returns the message that would be written.
- `Settings.Images2Pdf.constructor` does not store the `messageprint` argument, which the setters never use.
- The property getters are plain field reads and have no members of their own.
- Python values other than `str`, `int`, `bool` and `None` are not represented. `Value` has one constructor for each of these four.
- The tokenizer is not run on the header example's eight stems. `Example` starts from the nine bookmarks those stems carry. `PlainToken`, `NotedToken`, `MarkedName`, `TokenizeSplitAtMarker` and `StemTokens` state the label shapes of that example in general form.
