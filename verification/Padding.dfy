/** Padding a formatted field to a width. */
module Padding {
  const MAX_WIDTH := 64  // also the number of spaces the padder has at hand

  datatype Side = Left | Right | Center

  datatype PaddingInfo = PaddingInfo(width: nat, side: Side, truncate: bool, enabled: bool)

  const NO_PADDING := PaddingInfo(0, Left, false, false)

  function Spaces(n: nat): (s: string)
    ensures |s| == n
  {
    seq(n, _ => ' ')
  }

  // How many of the missing characters go to the left of the text.
  function LeftShare(pad: PaddingInfo, missing: nat): nat {
    match pad.side
    case Left => missing
    case Right => 0
    case Center => missing / 2
  }

  // A text as a field of a width.
  function Field(text: string, pad: PaddingInfo): string {
    if |text| <= pad.width then
      var missing := pad.width - |text|;
      Spaces(LeftShare(pad, missing)) + text + Spaces(missing - LeftShare(pad, missing))
    else if pad.truncate then text[..pad.width]
    else text
  }

  class MemoryBuf {
    var data: string

    constructor ()
      ensures data == ""
    {
      data := "";
    }

    method Append(s: string)
      modifies this
      ensures data == old(data) + s
    {
      data := data + s;
    }

    method Resize(n: nat)
      requires n <= |data|
      modifies this
      ensures data == old(data)[..n]
    {
      data := data[..n];
    }
  }

  class ScopedPadder {
    const padinfo: PaddingInfo
    const dest: MemoryBuf
    var remainingPad: int

    // Whether what is still to be done can be done: pad with the spaces at hand, or cut what is there.
    predicate Ready()
      reads this, dest
    {
      remainingPad <= MAX_WIDTH && (remainingPad < 0 && padinfo.truncate ==> |dest.data| + remainingPad >= 0)
    }

    constructor (wrappedSize: nat, padinfo: PaddingInfo, dest: MemoryBuf)
      requires padinfo.width <= MAX_WIDTH
      modifies dest
      ensures this.padinfo == padinfo && this.dest == dest
      ensures if padinfo.width <= wrappedSize then
                dest.data == old(dest.data) && remainingPad == padinfo.width - wrappedSize
              else
                var left := LeftShare(padinfo, padinfo.width - wrappedSize);
                dest.data == old(dest.data) + Spaces(left) && remainingPad == padinfo.width - wrappedSize - left
    {
      this.padinfo := padinfo;
      this.dest := dest;
      remainingPad := padinfo.width - wrappedSize;
      new;
      if remainingPad <= 0 {
        return;
      }
      if padinfo.side == Left {
        PadIt(remainingPad);
        remainingPad := 0;
      } else if padinfo.side == Center {
        var halfPad := remainingPad / 2;
        var reminder := remainingPad % 2;
        PadIt(halfPad);
        remainingPad := halfPad + reminder;
      } else {
        assert dest.data == dest.data + Spaces(0);
      }
    }

    // What the destructor does.
    method Finish()
      requires Ready()
      modifies dest
      ensures dest.data == if remainingPad >= 0 then old(dest.data) + Spaces(remainingPad)
                           else if padinfo.truncate then old(dest.data)[..|old(dest.data)| + remainingPad]
                           else old(dest.data)
    {
      if remainingPad >= 0 {
        PadIt(remainingPad);
      } else if padinfo.truncate {
        var newSize := |dest.data| + remainingPad;
        dest.Resize(newSize);
      }
    }

    method PadIt(count: int)
      requires 0 <= count <= MAX_WIDTH
      modifies dest
      ensures dest.data == old(dest.data) + Spaces(count)
    {
      var spaces := Spaces(MAX_WIDTH);
      assert spaces[..count] == Spaces(count);
      dest.Append(spaces[..count]);
    }
  }

  // What is in the buffer after a formatter that declared a size has written its text.
  function AfterField(before: string, text: string, declared: nat, pad: PaddingInfo): string {
    if declared <= pad.width then
      var left := LeftShare(pad, pad.width - declared);
      before + Spaces(left) + text + Spaces(pad.width - declared - left)
    else if pad.truncate && |before + text| >= declared - pad.width then
      (before + text)[..|before + text| - (declared - pad.width)]
    else before + text
  }

  // A flag formatter: the padder, the text, the end of the padder's scope.
  method FormatField(text: string, declared: nat, pad: PaddingInfo, dest: MemoryBuf)
    requires pad.width <= MAX_WIDTH
    requires pad.truncate && declared > pad.width ==> |dest.data| + |text| >= declared - pad.width
    modifies dest
    ensures dest.data == AfterField(old(dest.data), text, declared, pad)
  {
    var p := new ScopedPadder(declared, pad, dest);
    dest.Append(text);
    p.Finish();
    assert declared == pad.width ==> Spaces(LeftShare(pad, 0)) == "";
  }

  // If the declared size is the text's, the field is appended and nothing else happens.
  lemma DeclaredSizeGivesField(before: string, text: string, pad: PaddingInfo)
    ensures AfterField(before, text, |text|, pad) == before + Field(text, pad)
  {
    if |text| > pad.width && pad.truncate {
      assert (before + text)[..|before| + pad.width] == before + text[..pad.width];
    }
  }

  predicate Blank(s: string) {
    forall i :: 0 <= i < |s| ==> s[i] == ' '
  }

  // How the blanks around a text are shared out.
  predicate Shared(side: Side, left: string, right: string) {
    && Blank(left) && Blank(right)
    && (match side
        case Left => right == ""
        case Right => left == ""
        case Center => |left| <= |right| <= |left| + 1)
  }

  // The field is exactly the width, if the text fits or is cut; otherwise it is the text.
  lemma FieldWidth(text: string, pad: PaddingInfo)
    ensures |Field(text, pad)| == if |text| <= pad.width || pad.truncate then pad.width else |text|
    ensures |text| <= pad.width ==>
              exists left, right :: Shared(pad.side, left, right) && Field(text, pad) == left + text + right
    ensures |text| > pad.width && pad.truncate ==> Field(text, pad) == text[..pad.width]
    ensures |text| > pad.width && !pad.truncate ==> Field(text, pad) == text
  {
    if |text| <= pad.width {
      var missing := pad.width - |text|;
      var l := LeftShare(pad, missing);
      assert Shared(pad.side, Spaces(l), Spaces(missing - l));
    }
  }

  // A formatter that declares a size other than that of its text gets the blanks or the cut that
  // belong to the declared size.
  lemma DeclaredSizeDecides(before: string, text: string, declared: nat, pad: PaddingInfo)
    ensures declared <= pad.width ==>
              exists left, right :: Shared(pad.side, left, right) && |left| + |right| == pad.width - declared
                && AfterField(before, text, declared, pad) == before + left + text + right
    ensures declared > pad.width && !pad.truncate ==> AfterField(before, text, declared, pad) == before + text
    ensures declared > pad.width && pad.truncate && |before + text| >= declared - pad.width ==>
              && AfterField(before, text, declared, pad) <= before + text
              && |AfterField(before, text, declared, pad)| == |before| + |text| - (declared - pad.width)
  {
    if declared <= pad.width {
      var missing := pad.width - declared;
      var l := LeftShare(pad, missing);
      assert Shared(pad.side, Spaces(l), Spaces(missing - l));
    }
  }

  // A truncating field leaves what was in the buffer before exactly if the text is at least as
  // long as what is cut off; a formatter that declares too large a size can eat into it.
  lemma EarlierContentKept(before: string, text: string, declared: nat, pad: PaddingInfo)
    requires pad.truncate && declared > pad.width && |before + text| >= declared - pad.width
    ensures before <= AfterField(before, text, declared, pad) <==> |text| >= declared - pad.width
  {
  }
}
