/** The generated request message: a serial number and an optional image shape, which is kept
    allocated after it has been cleared. */
module ImageRequest {
  import opened Options

  datatype ShapeValue = ShapeValue(width: int, height: int, channel: int)

  const NO_SHAPE := ShapeValue(0, 0, 0)

  // What a request means.
  datatype Request = Request(sn: string, shape: Option<ShapeValue>)

  const EMPTY := Request("", None)

  // A field that is not zero replaces the other one.
  function MergeShape(a: ShapeValue, b: ShapeValue): ShapeValue {
    ShapeValue(if b.width != 0 then b.width else a.width,
               if b.height != 0 then b.height else a.height,
               if b.channel != 0 then b.channel else a.channel)
  }

  function Merge(a: Request, b: Request): Request {
    Request(if b.sn != "" then b.sn else a.sn,
            match (a.shape, b.shape)
            case (_, None) => a.shape
            case (None, Some(_)) => b.shape
            case (Some(x), Some(y)) => Some(MergeShape(x, y)))
  }

  // Merging is associative and the empty request is its identity.
  lemma MergeIsMonoid(a: Request, b: Request, c: Request)
    ensures Merge(Merge(a, b), c) == Merge(a, Merge(b, c))
    ensures Merge(a, EMPTY) == a && Merge(EMPTY, a) == a
  {
    if a.shape.Some? && b.shape.Some? && c.shape.Some? {
      var x, y, z := a.shape.value, b.shape.value, c.shape.value;
      assert MergeShape(MergeShape(x, y), z) == MergeShape(x, MergeShape(y, z));
    }
  }

  // A request that says everything replaces whatever it is merged into.
  lemma FullRequestWins(a: Request, b: Request)
    requires b.sn != "" && b.shape.Some?
    requires b.shape.value.width != 0 && b.shape.value.height != 0 && b.shape.value.channel != 0
    ensures Merge(a, b) == b
  {
  }

  class ImageShape {
    var width: int
    var height: int
    var channel: int

    ghost function Abs(): ShapeValue
      reads this
    {
      ShapeValue(width, height, channel)
    }

    constructor (v: ShapeValue)
      ensures Abs() == v
    {
      width, height, channel := v.width, v.height, v.channel;
    }

    method Clear()
      modifies this
      ensures Abs() == NO_SHAPE
    {
      width, height, channel := 0, 0, 0;
    }

    method MergeFrom(from: ImageShape)
      requires from != this
      modifies this
      ensures Abs() == MergeShape(old(Abs()), old(from.Abs()))
      ensures width == if from.width != 0 then from.width else old(width)
      ensures height == if from.height != 0 then from.height else old(height)
      ensures channel == if from.channel != 0 then from.channel else old(channel)
    {
      if from.width != 0 {
        width := from.width;
      }
      if from.height != 0 {
        height := from.height;
      }
      if from.channel != 0 {
        channel := from.channel;
      }
    }

    method CopyFrom(from: ImageShape)
      modifies this
      ensures Abs() == old(from.Abs())
    {
      if from == this {
        return;
      }
      Clear();
      MergeFrom(from);
    }
  }

  // A request on the heap: it owns its shape.
  class ImageRequestMsg {
    var sn: string
    var hasBits: bv32
    var imageshape: ImageShape?

    // The bit says that the shape is there; without it a leftover shape is all default.
    ghost predicate Valid()
      reads this, imageshape
    {
      && (hasBits == 0 || hasBits == 1)
      && (hasBits == 1 ==> imageshape != null)
      && (hasBits == 0 && imageshape != null ==> imageshape.Abs() == NO_SHAPE)
    }

    ghost function Abs(): Request
      reads this, imageshape
      requires Valid()
    {
      Request(sn, if hasBits == 1 then Some(imageshape.Abs()) else None)
    }

    constructor ()
      ensures Valid() && Abs() == EMPTY && imageshape == null
    {
      sn := "";
      hasBits := 0;
      imageshape := null;
    }

    predicate HasImageshape()
      reads this
    {
      hasBits & 1 != 0
    }

    // The value a reader sees; the default shape if there is none.
    method GetImageshape() returns (v: ShapeValue)
      requires Valid()
      ensures v == if Abs().shape.Some? then Abs().shape.value else NO_SHAPE
      ensures HasImageshape() <==> Abs().shape.Some?
    {
      v := if imageshape != null then ShapeValue(imageshape.width, imageshape.height, imageshape.channel) else NO_SHAPE;
    }

    method SetSn(value: string)
      requires Valid()
      modifies `sn
      ensures Valid() && Abs() == old(Abs()).(sn := value)
    {
      sn := value;
    }

    method ClearImageshape()
      requires Valid()
      modifies this, imageshape
      ensures Valid() && Abs() == old(Abs()).(shape := None) && imageshape == old(imageshape)
    {
      if imageshape != null {
        imageshape.Clear();
      }
      hasBits := hasBits & !1;
    }

    // Makes the shape present, with the value it had or the default one.
    method MutableImageshape() returns (p: ImageShape)
      requires Valid()
      modifies this
      ensures Valid() && p == imageshape
      ensures old(imageshape) != null ==> imageshape == old(imageshape)
      ensures old(imageshape) == null ==> fresh(imageshape)
      ensures Abs() == old(Abs()).(shape := Some(if old(Abs()).shape.Some? then old(Abs()).shape.value else NO_SHAPE))
    {
      hasBits := hasBits | 1;
      if imageshape == null {
        imageshape := new ImageShape(NO_SHAPE);
      }
      p := imageshape;
    }

    // Hands over the object, present or leftover; a leftover one is all default.
    method ReleaseImageshape() returns (released: ImageShape?)
      requires Valid()
      modifies this
      ensures Valid() && Abs() == old(Abs()).(shape := None)
      ensures released == old(imageshape) && imageshape == null
      ensures old(Abs()).shape.Some? ==> released != null && released.Abs() == old(Abs()).shape.value
      ensures old(Abs()).shape.None? && released != null ==> released.Abs() == NO_SHAPE
    {
      hasBits := hasBits & !1;
      released := imageshape;
      imageshape := null;
    }

    // Takes over an object the message does not own yet; its own one is deleted first.
    method SetAllocatedImageshape(value: ImageShape?)
      requires Valid() && (value == null || value != imageshape)
      modifies this
      ensures Valid() && imageshape == value
      ensures Abs() == old(Abs()).(shape := if value == null then None else Some(value.Abs()))
    {
      if value != null {
        hasBits := hasBits | 1;
      } else {
        hasBits := hasBits & !1;
      }
      imageshape := value;
    }

    method Clear()
      requires Valid()
      modifies this, imageshape
      ensures Valid() && Abs() == EMPTY && imageshape == old(imageshape)
    {
      sn := "";
      if hasBits & 1 != 0 {
        imageshape.Clear();
      }
      hasBits := 0;
    }

    // Requests are distinct and share no shape object.
    ghost predicate Apart(other: ImageRequestMsg)
      reads this, other
    {
      other != this && (imageshape != null ==> other.imageshape != imageshape)
    }

    method MergeFrom(from: ImageRequestMsg)
      requires Valid() && from.Valid() && Apart(from)
      modifies this, imageshape
      ensures Valid() && from.Valid() && Apart(from)
      ensures Abs() == Merge(old(Abs()), old(from.Abs())) && from.Abs() == old(from.Abs())
      ensures imageshape == old(imageshape) || fresh(imageshape)
      ensures sn == if from.sn != "" then from.sn else old(sn)
      ensures !from.HasImageshape() ==> HasImageshape() == old(HasImageshape())
      ensures !from.HasImageshape() && old(HasImageshape()) ==> imageshape.Abs() == old(imageshape.Abs())
      ensures from.HasImageshape() ==>
                && HasImageshape()
                && var now, theirs := imageshape.Abs(), from.imageshape.Abs();
                   && (theirs.width != 0 ==> now.width == theirs.width)
                   && (theirs.height != 0 ==> now.height == theirs.height)
                   && (theirs.channel != 0 ==> now.channel == theirs.channel)
                   && var ours := if old(HasImageshape()) then old(imageshape.Abs()) else ShapeValue(0, 0, 0);
                      && (theirs.width == 0 ==> now.width == ours.width)
                      && (theirs.height == 0 ==> now.height == ours.height)
                      && (theirs.channel == 0 ==> now.channel == ours.channel)
    {
      if from.sn != "" {
        sn := from.sn;
      }
      var cachedHasBits := from.hasBits;
      if cachedHasBits & 1 != 0 {
        if imageshape == null {
          imageshape := new ImageShape(ShapeValue(from.imageshape.width, from.imageshape.height, from.imageshape.channel));
        } else {
          imageshape.MergeFrom(from.imageshape);
        }
      }
      hasBits := hasBits | cachedHasBits;
    }

    method CopyFrom(from: ImageRequestMsg)
      requires Valid() && from.Valid() && (from == this || Apart(from))
      modifies this, imageshape
      ensures Valid() && from.Valid()
      ensures Abs() == old(from.Abs()) && from.Abs() == old(from.Abs())
      ensures from != this ==> Apart(from)
      ensures imageshape == old(imageshape) || fresh(imageshape)
    {
      if from == this {
        return;
      }
      Clear();
      MergeFrom(from);
    }

    method InternalSwap(other: ImageRequestMsg)
      requires Valid() && other.Valid() && Apart(other)
      modifies this, other
      ensures Valid() && other.Valid() && Apart(other)
      ensures Abs() == old(other.Abs()) && other.Abs() == old(Abs())
      ensures imageshape == old(other.imageshape) && other.imageshape == old(imageshape)
    {
      hasBits, other.hasBits := other.hasBits, hasBits;
      sn, other.sn := other.sn, sn;
      imageshape, other.imageshape := other.imageshape, imageshape;
    }
  }

  // Merging into a leftover shape is right only because the leftover is all default: a request
  // without a shape whose leftover object held anything else would take it over.
  lemma LeftoverMustBeDefault(leftover: ShapeValue)
    ensures (forall v :: MergeShape(leftover, v) == v) <==> leftover == NO_SHAPE
  {
    if leftover != NO_SHAPE {
      assert MergeShape(leftover, NO_SHAPE) == leftover;
    }
  }
}
