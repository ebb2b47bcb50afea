/** Overlay compositor: for every field and every place its label was found,
    a white mask over the old value and the new value drawn on top; then,
    when a profile image is supplied, the image at each of its anchors.
    Everything is drawn on one canvas page. */
module Overlay {
  import opened Locator
  import opened Drawing

  /** One entry of the field table: the label the field is keyed by and the
      text to draw in its place. */
  datatype Field = Field(name: string, value: string)

  /** The mask is a fixed 200 points wide whatever the value's length, and
      5 points taller than the font size. */
  const MaskWidth: real := 200.0
  const MaskPadding: real := 5.0
  /** Side of the square the profile image is drawn into. */
  const ImageSide: real := 100.0
  /** Key of the positions table that holds the profile image's anchors. */
  const ProfileImageKey: string := "profile_image"

  /** The matches stored under `key`, or none when the key is absent. */
  function Lookup(positions: map<string, seq<Word>>, key: string): seq<Word> {
    if key in positions then positions[key] else []
  }

  /** Whether an image path counts as supplied: absent and empty paths do not. */
  predicate Truthy(image: Option<string>) {
    image.Some? && image.value != ""
  }

  /** The five commands drawn for one match of a field. */
  function MatchOps(value: string, w: Word, height: real): seq<DrawOp> {
    var y := height - w.top;
    [ DrawOp.SetFont(w.fontName, w.size),
      SetFillColor(White),
      DrawOp.Rect(w.x0, y - w.size, MaskWidth, w.size + MaskPadding, true, false),
      SetFillColor(Black),
      DrawOp.DrawString(w.x0, y, value) ]
  }

  /** The commands for every match of one field, match by match. */
  function FieldOps(value: string, matches: seq<Word>, height: real): seq<DrawOp> {
    if matches == [] then []
    else FieldOps(value, matches[..|matches| - 1], height) + MatchOps(value, matches[|matches| - 1], height)
  }

  /** The commands for every field, field by field, in table order. */
  function TextOps(fields: seq<Field>, positions: map<string, seq<Word>>, height: real): seq<DrawOp> {
    if fields == [] then []
    else
      var last := fields[|fields| - 1];
      TextOps(fields[..|fields| - 1], positions, height) + FieldOps(last.value, Lookup(positions, last.name), height)
  }

  /** One image command per anchor, 100 points below the anchor's top. */
  function ImageOps(image: string, matches: seq<Word>, height: real): seq<DrawOp> {
    if matches == [] then []
    else
      var w := matches[|matches| - 1];
      ImageOps(image, matches[..|matches| - 1], height) + [DrawOp.DrawImage(image, w.x0, height - w.top - ImageSide, ImageSide, ImageSide)]
  }

  /** The whole overlay program: text commands, then image commands. */
  function OverlayOps(fields: seq<Field>, positions: map<string, seq<Word>>, pageSize: PageSize, image: Option<string>): seq<DrawOp> {
    TextOps(fields, positions, pageSize.height)
      + (if Truthy(image) then ImageOps(image.value, Lookup(positions, ProfileImageKey), pageSize.height) else [])
  }

  /** The overlay document: the one page that holds the program, or no page
      when nothing was drawn. */
  function OverlayDocument(fields: seq<Field>, positions: map<string, seq<Word>>, pageSize: PageSize, image: Option<string>): seq<Page> {
    var ops := OverlayOps(fields, positions, pageSize, image);
    if ops == [] then [] else [Page(ops)]
  }

  /** Draws the mask over one match of a field and the new value on top. */
  method DrawMatch(c: Canvas, value: string, item: Word, height: real)
    requires c.Valid()
    modifies c
    ensures c.Valid() && c.pages == old(c.pages)
    ensures c.ops == old(c.ops) + MatchOps(value, item, height)
  {
    var x := item.x0;
    var y := height - item.top;
    var size := item.size;
    c.SetFont(item.fontName, size);
    c.SetFillColorRGB(1.0, 1.0, 1.0);
    c.Rect(x, y - size, 200.0, size + 5.0, true, false);
    c.SetFillColorRGB(0.0, 0.0, 0.0);
    c.DrawString(x, y, value);
  }

  /** Draws the mask and the new value at every match of one field. */
  method DrawField(c: Canvas, value: string, matches: seq<Word>, height: real)
    requires c.Valid()
    modifies c
    ensures c.Valid() && c.pages == old(c.pages)
    ensures c.ops == old(c.ops) + FieldOps(value, matches, height)
  {
    for j := 0 to |matches|
      invariant c.Valid() && c.pages == old(c.pages)
      invariant c.ops == old(c.ops) + FieldOps(value, matches[..j], height)
    {
      DrawMatch(c, value, matches[j], height);
      FieldOpsStep(value, matches, height, j);
    }
    assert matches[..|matches|] == matches;
  }

  /** One more match adds its five-command block at the end. */
  lemma FieldOpsStep(value: string, matches: seq<Word>, height: real, j: nat)
    requires j < |matches|
    ensures FieldOps(value, matches[..j + 1], height) == FieldOps(value, matches[..j], height) + MatchOps(value, matches[j], height)
  {
    assert matches[..j + 1][..j] == matches[..j];
  }

  /** Draws the image at every one of its anchors. */
  method DrawImages(c: Canvas, image: string, anchors: seq<Word>, height: real)
    requires c.Valid()
    modifies c
    ensures c.Valid() && c.pages == old(c.pages)
    ensures c.ops == old(c.ops) + ImageOps(image, anchors, height)
  {
    for j := 0 to |anchors|
      invariant c.Valid() && c.pages == old(c.pages)
      invariant c.ops == old(c.ops) + ImageOps(image, anchors[..j], height)
    {
      var item := anchors[j];
      var x := item.x0;
      var y := height - item.top - 100.0;
      c.DrawImage(image, x, y, 100.0, 100.0);
      assert anchors[..j + 1][..j] == anchors[..j];
    }
    assert anchors[..|anchors|] == anchors;
  }

  /** Draws every field at every one of its matches, then the image at each
      of its anchors, on a fresh canvas, and saves it. */
  method CreateOverlay(fields: seq<Field>, positions: map<string, seq<Word>>, pageSize: PageSize, image: Option<string>)
    returns (c: Canvas)
    ensures fresh(c) && c.Valid() && c.pageSize == pageSize
    ensures c.pages == OverlayDocument(fields, positions, pageSize, image)
  {
    c := new Canvas(pageSize);
    var height := pageSize.height;
    for i := 0 to |fields|
      invariant c.Valid() && c.pageSize == pageSize && c.pages == []
      invariant c.ops == TextOps(fields[..i], positions, height)
    {
      DrawField(c, fields[i].value, Lookup(positions, fields[i].name), height);
      assert fields[..i + 1][..i] == fields[..i];
    }
    assert fields[..|fields|] == fields;
    if Truthy(image) {
      DrawImages(c, image.value, Lookup(positions, ProfileImageKey), height);
    } else {
      assert c.ops + [] == c.ops;
    }
    c.Save();
  }

  // Layout of the overlay program

  /** A field's commands are one five-command block per match, in match
      order: font, white fill, mask, black fill, the value unchanged. */
  lemma {:induction false} FieldOpsLayout(value: string, matches: seq<Word>, height: real)
    ensures |FieldOps(value, matches, height)| == 5 * |matches|
    ensures forall j :: 0 <= j < |matches| ==>
      FieldOps(value, matches, height)[5 * j .. 5 * j + 5] == MatchOps(value, matches[j], height)
  {
    if matches != [] {
      var n := |matches| - 1;
      var prefix := matches[..n];
      FieldOpsLayout(value, prefix, height);
      var ops := FieldOps(value, matches, height);
      assert ops == FieldOps(value, prefix, height) + MatchOps(value, matches[n], height);
      forall j | 0 <= j < |matches|
        ensures ops[5 * j .. 5 * j + 5] == MatchOps(value, matches[j], height)
      {
        if j < n {
          assert matches[j] == prefix[j];
          assert 5 * j + 5 <= 5 * n;
          assert ops[5 * j .. 5 * j + 5] == FieldOps(value, prefix, height)[5 * j .. 5 * j + 5];
        } else {
          assert ops[5 * j ..] == MatchOps(value, matches[n], height);
        }
      }
    }
  }

  lemma {:induction false} TextOpsAppend(a: seq<Field>, b: seq<Field>, positions: map<string, seq<Word>>, height: real)
    ensures TextOps(a + b, positions, height) == TextOps(a, positions, height) + TextOps(b, positions, height)
    decreases |b|
  {
    if b == [] {
      assert a + b == a;
    } else {
      var n := |b| - 1;
      assert (a + b)[..|a + b| - 1] == a + b[..n];
      assert (a + b)[|a + b| - 1] == b[n];
      TextOpsAppend(a, b[..n], positions, height);
    }
  }

  /** The fields are drawn in table order: everything for the earlier
      fields, then the block of field `i`, then the later fields. */
  lemma TextOpsSplit(fields: seq<Field>, positions: map<string, seq<Word>>, height: real, i: nat)
    requires i < |fields|
    ensures TextOps(fields, positions, height)
      == TextOps(fields[..i], positions, height)
       + FieldOps(fields[i].value, Lookup(positions, fields[i].name), height)
       + TextOps(fields[i + 1..], positions, height)
  {
    assert fields == fields[..i] + [fields[i]] + fields[i + 1..];
    TextOpsAppend(fields[..i] + [fields[i]], fields[i + 1..], positions, height);
    TextOpsAppend(fields[..i], [fields[i]], positions, height);
    assert TextOps([fields[i]], positions, height) == FieldOps(fields[i].value, Lookup(positions, fields[i].name), height);
  }

  /** A field whose label is missing from the positions table, or has no
      match there, draws nothing: leaving it out changes no command. */
  lemma UnmatchedFieldIsInert(fields: seq<Field>, positions: map<string, seq<Word>>, height: real, i: nat)
    requires i < |fields|
    requires fields[i].name !in positions || positions[fields[i].name] == []
    ensures TextOps(fields, positions, height) == TextOps(fields[..i] + fields[i + 1..], positions, height)
  {
    var before, after := fields[..i], fields[i + 1..];
    TextOpsSplit(fields, positions, height, i);
    TextOpsAppend(before, after, positions, height);
    var block := FieldOps(fields[i].value, Lookup(positions, fields[i].name), height);
    assert block == [];
    assert TextOps(before, positions, height) + block == TextOps(before, positions, height);
  }

  /** When no field has a match, the text commands are empty. */
  lemma {:induction false} UnmatchedFieldsDrawNothing(fields: seq<Field>, positions: map<string, seq<Word>>, height: real)
    requires forall i :: 0 <= i < |fields| ==> Lookup(positions, fields[i].name) == []
    ensures TextOps(fields, positions, height) == []
  {
    if fields != [] {
      var n := |fields| - 1;
      assert forall i :: 0 <= i < n ==> fields[..n][i] == fields[i];
      UnmatchedFieldsDrawNothing(fields[..n], positions, height);
    }
  }

  /** When only field `i` has matches, the text commands are its block alone. */
  lemma {:induction false} OnlyFieldDrawn(fields: seq<Field>, positions: map<string, seq<Word>>, height: real, i: nat)
    requires i < |fields|
    requires forall k :: 0 <= k < |fields| && k != i ==> Lookup(positions, fields[k].name) == []
    ensures TextOps(fields, positions, height) == FieldOps(fields[i].value, Lookup(positions, fields[i].name), height)
  {
    var n := |fields| - 1;
    var prefix := fields[..n];
    var rest := TextOps(prefix, positions, height);
    var last := FieldOps(fields[n].value, Lookup(positions, fields[n].name), height);
    assert TextOps(fields, positions, height) == rest + last;
    if i == n {
      forall k | 0 <= k < |prefix|
        ensures Lookup(positions, prefix[k].name) == []
      {
        assert prefix[k] == fields[k];
      }
      UnmatchedFieldsDrawNothing(prefix, positions, height);
      assert rest + last == last;
    } else {
      forall k | 0 <= k < |prefix| && k != i
        ensures Lookup(positions, prefix[k].name) == []
      {
        assert prefix[k] == fields[k];
      }
      OnlyFieldDrawn(prefix, positions, height, i);
      assert prefix[i] == fields[i];
      assert last == [];
      assert rest + last == rest;
    }
  }

  /** One image command per anchor, in anchor order, 100 by 100 points,
      with its lower edge 100 points below the anchor's top. */
  lemma {:induction false} ImageOpsLayout(image: string, anchors: seq<Word>, height: real)
    ensures |ImageOps(image, anchors, height)| == |anchors|
    ensures forall j :: 0 <= j < |anchors| ==>
      ImageOps(image, anchors, height)[j]
        == DrawOp.DrawImage(image, anchors[j].x0, height - anchors[j].top - ImageSide, ImageSide, ImageSide)
  {
    if anchors != [] {
      var n := |anchors| - 1;
      ImageOpsLayout(image, anchors[..n], height);
      forall j | 0 <= j < n
        ensures anchors[j] == anchors[..n][j]
      {
      }
    }
  }

  /** A field's commands contain no image command. */
  lemma {:induction false} FieldOpsDrawNoImage(value: string, matches: seq<Word>, height: real)
    ensures forall k :: 0 <= k < |FieldOps(value, matches, height)| ==> !FieldOps(value, matches, height)[k].DrawImage?
  {
    if matches != [] {
      var n := |matches| - 1;
      FieldOpsDrawNoImage(value, matches[..n], height);
      ConcatParts(FieldOps(value, matches[..n], height), MatchOps(value, matches[n], height));
    }
  }

  /** The text commands contain no image command. */
  lemma {:induction false} TextOpsDrawNoImage(fields: seq<Field>, positions: map<string, seq<Word>>, height: real)
    ensures forall k :: 0 <= k < |TextOps(fields, positions, height)| ==> !TextOps(fields, positions, height)[k].DrawImage?
  {
    if fields != [] {
      var n := |fields| - 1;
      TextOpsDrawNoImage(fields[..n], positions, height);
      var block := FieldOps(fields[n].value, Lookup(positions, fields[n].name), height);
      FieldOpsDrawNoImage(fields[n].value, Lookup(positions, fields[n].name), height);
      ConcatParts(TextOps(fields[..n], positions, height), block);
    }
  }

  /** Image commands are drawn only for a supplied image, one per
      'profile_image' anchor, and all of them after every text command. */
  lemma ImagesComeLast(fields: seq<Field>, positions: map<string, seq<Word>>, pageSize: PageSize, image: Option<string>)
    returns (t: nat)
    ensures t <= |OverlayOps(fields, positions, pageSize, image)|
    ensures forall k :: 0 <= k < t ==> !OverlayOps(fields, positions, pageSize, image)[k].DrawImage?
    ensures |OverlayOps(fields, positions, pageSize, image)| - t
      == if Truthy(image) then |Lookup(positions, ProfileImageKey)| else 0
    ensures Truthy(image) ==> forall j :: 0 <= j < |Lookup(positions, ProfileImageKey)| ==>
      OverlayOps(fields, positions, pageSize, image)[t + j]
        == DrawOp.DrawImage(image.value, Lookup(positions, ProfileImageKey)[j].x0,
                            pageSize.height - Lookup(positions, ProfileImageKey)[j].top - ImageSide, ImageSide, ImageSide)
  {
    var text := TextOps(fields, positions, pageSize.height);
    var anchors := Lookup(positions, ProfileImageKey);
    var images := if Truthy(image) then ImageOps(image.value, anchors, pageSize.height) else [];
    var ops := OverlayOps(fields, positions, pageSize, image);
    t := |text|;
    assert ops == text + images;
    TextOpsDrawNoImage(fields, positions, pageSize.height);
    forall k | 0 <= k < t
      ensures !ops[k].DrawImage?
    {
      assert ops[k] == text[k];
    }
    if Truthy(image) {
      ImageOpsLayout(image.value, anchors, pageSize.height);
      forall j | 0 <= j < |anchors|
        ensures ops[t + j] == DrawOp.DrawImage(image.value, anchors[j].x0, pageSize.height - anchors[j].top - ImageSide, ImageSide, ImageSide)
      {
        assert ops[t + j] == images[j];
      }
    }
  }

  /** Where the elements of the two parts of a concatenation end up. */
  lemma ConcatParts(a: seq<DrawOp>, b: seq<DrawOp>)
    ensures forall k :: 0 <= k < |a| ==> (a + b)[k] == a[k]
    ensures forall j :: 0 <= j < |b| ==> (a + b)[|a| + j] == b[j]
  {
  }

  // What the overlay program paints

  /** The marks one match leaves: a white, unstroked 200-point mask, then
      the value in black in the matched word's font and size. */
  function MatchPainting(value: string, w: Word, height: real): seq<Mark> {
    [ Box(w.x0, height - w.top - w.size, MaskWidth, w.size + MaskPadding, Some(White), false),
      Glyphs(w.x0, height - w.top, w.fontName, w.size, Black, value) ]
  }

  function FieldPainting(value: string, matches: seq<Word>, height: real): seq<Mark> {
    if matches == [] then []
    else FieldPainting(value, matches[..|matches| - 1], height) + MatchPainting(value, matches[|matches| - 1], height)
  }

  /** Whatever state the canvas is in, one match's commands paint the mask
      white and then the value black, and leave the match's font selected
      with a black fill. */
  lemma MatchOpsPaint(value: string, w: Word, height: real, st: GraphicsState)
    ensures Render(MatchOps(value, w, height), st) == MatchPainting(value, w, height)
    ensures StateAfter(MatchOps(value, w, height), st) == GraphicsState(w.fontName, w.size, Black)
  {
    var ops := MatchOps(value, w, height);
    var p1, p2, p3, p4 := ops[..1], ops[..2], ops[..3], ops[..4];
    assert p1[..0] == [] && p2[..1] == p1 && p3[..2] == p2 && p4[..3] == p3 && ops[..4] == p4;
    assert p1 == [DrawOp.SetFont(w.fontName, w.size)];
    var s1 := StateAfter(p1, st);
    assert s1 == Next(p1[0], StateAfter(p1[..0], st));
    assert s1 == st.(fontName := w.fontName, fontSize := w.size);
    assert Render(p1, st) == [];
    var s2 := StateAfter(p2, st);
    assert s2 == s1.(fill := White);
    assert Render(p2, st) == [];
    assert StateAfter(p3, st) == s2;
    assert Render(p3, st) == [MatchPainting(value, w, height)[0]];
    assert StateAfter(p4, st) == GraphicsState(w.fontName, w.size, Black);
    assert Render(p4, st) == [MatchPainting(value, w, height)[0]];
  }

  lemma {:induction false} FieldOpsPaint(value: string, matches: seq<Word>, height: real, st: GraphicsState)
    ensures Render(FieldOps(value, matches, height), st) == FieldPainting(value, matches, height)
    ensures matches != [] ==>
      StateAfter(FieldOps(value, matches, height), st)
        == GraphicsState(matches[|matches| - 1].fontName, matches[|matches| - 1].size, Black)
    ensures matches == [] ==> StateAfter(FieldOps(value, matches, height), st) == st
  {
    if matches != [] {
      var n := |matches| - 1;
      var prefix := FieldOps(value, matches[..n], height);
      FieldOpsPaint(value, matches[..n], height, st);
      RunAppend(prefix, MatchOps(value, matches[n], height), st);
      MatchOpsPaint(value, matches[n], height, StateAfter(prefix, st));
    }
  }

  /** A mark the text commands leave is either a white, unstroked mask of
      the fixed width or a value drawn in black. */
  ghost predicate MaskOrValue(m: Mark) {
    || (m.Box? && m.fillColor == Some(White) && !m.stroked && m.width == MaskWidth)
    || (m.Glyphs? && m.color == Black)
  }

  lemma {:induction false} FieldPaintingMarks(value: string, matches: seq<Word>, height: real)
    ensures forall m :: m in FieldPainting(value, matches, height) ==> MaskOrValue(m)
  {
    if matches != [] {
      FieldPaintingMarks(value, matches[..|matches| - 1], height);
    }
  }

  /** The text commands paint the same marks whatever graphics state the
      canvas starts in, and every one is a white mask or a black value. */
  lemma {:induction false} TextOpsPaint(fields: seq<Field>, positions: map<string, seq<Word>>, height: real, st1: GraphicsState, st2: GraphicsState)
    ensures Render(TextOps(fields, positions, height), st1) == Render(TextOps(fields, positions, height), st2)
    ensures forall m :: m in Render(TextOps(fields, positions, height), st1) ==> MaskOrValue(m)
  {
    if fields != [] {
      var n := |fields| - 1;
      var prefix := TextOps(fields[..n], positions, height);
      var matches := Lookup(positions, fields[n].name);
      var block := FieldOps(fields[n].value, matches, height);
      TextOpsPaint(fields[..n], positions, height, st1, st2);
      RunAppend(prefix, block, st1);
      RunAppend(prefix, block, st2);
      FieldOpsPaint(fields[n].value, matches, height, StateAfter(prefix, st1));
      FieldOpsPaint(fields[n].value, matches, height, StateAfter(prefix, st2));
      FieldPaintingMarks(fields[n].value, matches, height);
    }
  }

  // What the overlay does not depend on

  /** Two match lists that agree on everything but the page numbers. */
  predicate SamePlacement(a: seq<Word>, b: seq<Word>) {
    |a| == |b| && forall k :: 0 <= k < |a| ==> a[k].(pageNumber := 0) == b[k].(pageNumber := 0)
  }

  /** Two positions tables that agree on everything but the page numbers. */
  ghost predicate SamePlacementTable(p1: map<string, seq<Word>>, p2: map<string, seq<Word>>) {
    p1.Keys == p2.Keys && forall key :: key in p1 ==> SamePlacement(p1[key], p2[key])
  }

  lemma {:induction false} FieldOpsIgnorePage(value: string, a: seq<Word>, b: seq<Word>, height: real)
    requires SamePlacement(a, b)
    ensures FieldOps(value, a, height) == FieldOps(value, b, height)
  {
    if a != [] {
      var n := |a| - 1;
      assert a[n].(pageNumber := 0) == b[n].(pageNumber := 0);
      assert SamePlacement(a[..n], b[..n]) by {
        forall k | 0 <= k < n
          ensures a[..n][k].(pageNumber := 0) == b[..n][k].(pageNumber := 0)
        {
          assert a[..n][k] == a[k] && b[..n][k] == b[k];
        }
      }
      FieldOpsIgnorePage(value, a[..n], b[..n], height);
    }
  }

  lemma {:induction false} ImageOpsIgnorePage(image: string, a: seq<Word>, b: seq<Word>, height: real)
    requires SamePlacement(a, b)
    ensures ImageOps(image, a, height) == ImageOps(image, b, height)
  {
    if a != [] {
      var n := |a| - 1;
      assert a[n].(pageNumber := 0) == b[n].(pageNumber := 0);
      assert SamePlacement(a[..n], b[..n]) by {
        forall k | 0 <= k < n
          ensures a[..n][k].(pageNumber := 0) == b[..n][k].(pageNumber := 0)
        {
          assert a[..n][k] == a[k] && b[..n][k] == b[k];
        }
      }
      ImageOpsIgnorePage(image, a[..n], b[..n], height);
    }
  }

  lemma {:induction false} TextOpsIgnorePage(fields: seq<Field>, p1: map<string, seq<Word>>, p2: map<string, seq<Word>>, height: real)
    requires SamePlacementTable(p1, p2)
    ensures TextOps(fields, p1, height) == TextOps(fields, p2, height)
  {
    if fields != [] {
      var n := |fields| - 1;
      TextOpsIgnorePage(fields[..n], p1, p2, height);
      var key := fields[n].name;
      if key in p1 {
        FieldOpsIgnorePage(fields[n].value, p1[key], p2[key], height);
      }
    }
  }

  /** The page a match was found on is never read: tables that differ only
      in page numbers give the very same overlay program. */
  lemma PageNumberNeverRead(fields: seq<Field>, p1: map<string, seq<Word>>, p2: map<string, seq<Word>>, pageSize: PageSize, image: Option<string>)
    requires SamePlacementTable(p1, p2)
    ensures OverlayOps(fields, p1, pageSize, image) == OverlayOps(fields, p2, pageSize, image)
  {
    TextOpsIgnorePage(fields, p1, p2, pageSize.height);
    if ProfileImageKey in p1 && Truthy(image) {
      ImageOpsIgnorePage(image.value, p1[ProfileImageKey], p2[ProfileImageKey], pageSize.height);
    }
  }

  /** Two field tables with the same labels in the same order. */
  predicate SameLabels(f1: seq<Field>, f2: seq<Field>) {
    |f1| == |f2| && forall i :: 0 <= i < |f1| ==> f1[i].name == f2[i].name
  }

  /** Two programs that differ at most in the text of their string commands. */
  predicate SameExceptText(o1: seq<DrawOp>, o2: seq<DrawOp>) {
    && |o1| == |o2|
    && forall k :: 0 <= k < |o1| ==>
         || o1[k] == o2[k]
         || (o1[k].DrawString? && o2[k].DrawString? && o1[k].x == o2[k].x && o1[k].y == o2[k].y)
  }

  lemma SameExceptTextAppend(a1: seq<DrawOp>, a2: seq<DrawOp>, b1: seq<DrawOp>, b2: seq<DrawOp>)
    requires SameExceptText(a1, a2) && SameExceptText(b1, b2)
    ensures SameExceptText(a1 + b1, a2 + b2)
  {
    forall k | 0 <= k < |a1| + |b1|
      ensures (a1 + b1)[k] == (a2 + b2)[k]
        || ((a1 + b1)[k].DrawString? && (a2 + b2)[k].DrawString?
            && (a1 + b1)[k].x == (a2 + b2)[k].x && (a1 + b1)[k].y == (a2 + b2)[k].y)
    {
      if k >= |a1| {
        assert (a1 + b1)[k] == b1[k - |a1|] && (a2 + b2)[k] == b2[k - |a1|];
      }
    }
  }

  lemma {:induction false} FieldOpsValueOnlyInText(v1: string, v2: string, matches: seq<Word>, height: real)
    ensures SameExceptText(FieldOps(v1, matches, height), FieldOps(v2, matches, height))
  {
    if matches != [] {
      var n := |matches| - 1;
      FieldOpsValueOnlyInText(v1, v2, matches[..n], height);
      SameExceptTextAppend(FieldOps(v1, matches[..n], height), FieldOps(v2, matches[..n], height),
                           MatchOps(v1, matches[n], height), MatchOps(v2, matches[n], height));
    }
  }

  lemma {:induction false} TextOpsValueOnlyInText(f1: seq<Field>, f2: seq<Field>, positions: map<string, seq<Word>>, height: real)
    requires SameLabels(f1, f2)
    ensures SameExceptText(TextOps(f1, positions, height), TextOps(f2, positions, height))
  {
    if f1 != [] {
      var n := |f1| - 1;
      assert SameLabels(f1[..n], f2[..n]);
      TextOpsValueOnlyInText(f1[..n], f2[..n], positions, height);
      var matches := Lookup(positions, f1[n].name);
      FieldOpsValueOnlyInText(f1[n].value, f2[n].value, matches, height);
      SameExceptTextAppend(TextOps(f1[..n], positions, height), TextOps(f2[..n], positions, height),
                           FieldOps(f1[n].value, matches, height), FieldOps(f2[n].value, matches, height));
    }
  }

  /** The values are drawn as given and never measured: changing them
      changes only the text of the string commands, so the masks keep
      their fixed geometry however long the new values are. */
  lemma ValuesOnlyChangeText(f1: seq<Field>, f2: seq<Field>, positions: map<string, seq<Word>>, pageSize: PageSize, image: Option<string>)
    requires SameLabels(f1, f2)
    ensures SameExceptText(OverlayOps(f1, positions, pageSize, image), OverlayOps(f2, positions, pageSize, image))
  {
    TextOpsValueOnlyInText(f1, f2, positions, pageSize.height);
    var tail := if Truthy(image) then ImageOps(image.value, Lookup(positions, ProfileImageKey), pageSize.height) else [];
    SameExceptTextAppend(TextOps(f1, positions, pageSize.height), TextOps(f2, positions, pageSize.height), tail, tail);
  }
}
