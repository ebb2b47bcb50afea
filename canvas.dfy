/** The drawing surface the overlay is written onto: the commands a PDF
    canvas accepts, the graphics state they change, the marks they leave
    on the page, and a canvas object that records commands page by page. */
module Drawing {

  datatype Rgb = Rgb(red: real, green: real, blue: real)

  const White: Rgb := Rgb(1.0, 1.0, 1.0)
  const Black: Rgb := Rgb(0.0, 0.0, 0.0)

  datatype PageSize = PageSize(width: real, height: real)

  /** One canvas command, with its arguments as the caller passed them. */
  datatype DrawOp =
    | SetFont(fontName: string, fontSize: real)
    | SetFillColor(color: Rgb)
    | Rect(x: real, y: real, width: real, height: real, fill: bool, stroke: bool)
    | DrawString(x: real, y: real, text: string)
    | DrawImage(image: string, x: real, y: real, width: real, height: real)

  /** A page of a document: the drawing program that produces it. */
  datatype Page = Page(content: seq<DrawOp>)

  /** The part of the graphics state the commands above read or change. */
  datatype GraphicsState = GraphicsState(fontName: string, fontSize: real, fill: Rgb)

  /** The state every fresh canvas page starts in: 12-point Helvetica,
      black fill. */
  const InitialState: GraphicsState := GraphicsState("Helvetica", 12.0, Black)

  /** What a command leaves on the page. */
  datatype Mark =
    | Box(x: real, y: real, width: real, height: real, fillColor: Option<Rgb>, stroked: bool)
    | Glyphs(x: real, y: real, fontName: string, fontSize: real, color: Rgb, text: string)
    | Picture(image: string, x: real, y: real, width: real, height: real)

  datatype Option<T> = None | Some(value: T)

  function Next(op: DrawOp, st: GraphicsState): GraphicsState {
    match op
    case SetFont(name, size) => st.(fontName := name, fontSize := size)
    case SetFillColor(color) => st.(fill := color)
    case _ => st
  }

  function Paint(op: DrawOp, st: GraphicsState): seq<Mark> {
    match op
    case SetFont(_, _) => []
    case SetFillColor(_) => []
    case Rect(x, y, w, h, fill, stroke) =>
      if fill || stroke then [Box(x, y, w, h, if fill then Some(st.fill) else None, stroke)] else []
    case DrawString(x, y, text) => [Glyphs(x, y, st.fontName, st.fontSize, st.fill, text)]
    case DrawImage(image, x, y, w, h) => [Picture(image, x, y, w, h)]
  }

  /** The graphics state after running `ops` from `st`. */
  function StateAfter(ops: seq<DrawOp>, st: GraphicsState): GraphicsState {
    if ops == [] then st else Next(ops[|ops| - 1], StateAfter(ops[..|ops| - 1], st))
  }

  /** The marks `ops` leave on a page when run from `st`, in painting order. */
  function Render(ops: seq<DrawOp>, st: GraphicsState): seq<Mark> {
    if ops == [] then []
    else
      var prefix := ops[..|ops| - 1];
      Render(prefix, st) + Paint(ops[|ops| - 1], StateAfter(prefix, st))
  }

  /** Running two programs one after the other. */
  lemma {:induction false} RunAppend(a: seq<DrawOp>, b: seq<DrawOp>, st: GraphicsState)
    ensures StateAfter(a + b, st) == StateAfter(b, StateAfter(a, st))
    ensures Render(a + b, st) == Render(a, st) + Render(b, StateAfter(a, st))
    decreases |b|
  {
    if b == [] {
      assert a + b == a;
    } else {
      var n := |b| - 1;
      assert (a + b)[..|a + b| - 1] == a + b[..n];
      assert (a + b)[|a + b| - 1] == b[n];
      RunAppend(a, b[..n], st);
    }
  }

  /** A canvas: the commands of the page being drawn, the pages already
      finished, and the current graphics state. */
  class Canvas {
    const pageSize: PageSize
    var ops: seq<DrawOp>
    var pages: seq<Page>
    var state: GraphicsState

    /** The graphics state is the one the current page's commands lead to. */
    ghost predicate Valid()
      reads this
    {
      state == StateAfter(ops, InitialState)
    }

    constructor (pageSize: PageSize)
      ensures Valid()
      ensures this.pageSize == pageSize && ops == [] && pages == [] && state == InitialState
    {
      this.pageSize := pageSize;
      ops := [];
      pages := [];
      state := InitialState;
    }

    /** Appends one command and applies its effect on the graphics state. */
    method Issue(op: DrawOp)
      requires Valid()
      modifies this
      ensures Valid()
      ensures ops == old(ops) + [op] && pages == old(pages) && state == Next(op, old(state))
    {
      assert (ops + [op])[..|ops|] == ops;
      ops := ops + [op];
      state := Next(op, state);
    }

    method SetFont(fontName: string, fontSize: real)
      requires Valid()
      modifies this
      ensures Valid()
      ensures ops == old(ops) + [DrawOp.SetFont(fontName, fontSize)] && pages == old(pages)
      ensures state == old(state).(fontName := fontName, fontSize := fontSize)
    {
      Issue(DrawOp.SetFont(fontName, fontSize));
    }

    method SetFillColorRGB(red: real, green: real, blue: real)
      requires Valid()
      modifies this
      ensures Valid()
      ensures ops == old(ops) + [SetFillColor(Rgb(red, green, blue))] && pages == old(pages)
      ensures state == old(state).(fill := Rgb(red, green, blue))
    {
      Issue(SetFillColor(Rgb(red, green, blue)));
    }

    method Rect(x: real, y: real, width: real, height: real, fill: bool, stroke: bool)
      requires Valid()
      modifies this
      ensures Valid()
      ensures ops == old(ops) + [DrawOp.Rect(x, y, width, height, fill, stroke)]
      ensures pages == old(pages) && state == old(state)
    {
      Issue(DrawOp.Rect(x, y, width, height, fill, stroke));
    }

    method DrawString(x: real, y: real, text: string)
      requires Valid()
      modifies this
      ensures Valid()
      ensures ops == old(ops) + [DrawOp.DrawString(x, y, text)]
      ensures pages == old(pages) && state == old(state)
    {
      Issue(DrawOp.DrawString(x, y, text));
    }

    method DrawImage(image: string, x: real, y: real, width: real, height: real)
      requires Valid()
      modifies this
      ensures Valid()
      ensures ops == old(ops) + [DrawOp.DrawImage(image, x, y, width, height)]
      ensures pages == old(pages) && state == old(state)
    {
      Issue(DrawOp.DrawImage(image, x, y, width, height));
    }

    /** Closes the document: a page with pending commands is finished
        (and the next page would start from the initial state); a canvas
        with nothing pending adds no page. */
    method Save()
      requires Valid()
      modifies this
      ensures Valid()
      ensures pages == old(pages) + (if old(ops) == [] then [] else [Page(old(ops))])
      ensures ops == [] && state == InitialState
    {
      if ops != [] {
        pages := pages + [Page(ops)];
        ops := [];
        state := InitialState;
      }
    }
  }
}
