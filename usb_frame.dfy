/** renderer/usb_frame.py: the frame line `USBFrameRenderer.render` writes to the
    device. Each pixel becomes six upper-case hex digits RRGGBB, pixels in row-major
    order, and the line ends with a newline. */
module UsbFrame {
  import opened Cells
  import Gameplay

  /** A value of `buffer2d`: a colour tuple, or anything else read for its truth value. */
  datatype Pixel = Tuple(r: int, g: int, b: int) | Flag(truthy: bool)

  /** The colour a pixel is sent as: a tuple as it is, a truthy value orange, a falsy
      one black. */
  function ColorOf(p: Pixel): (int, int, int)
  {
    match p
    case Tuple(r, g, b) => (r, g, b)
    case Flag(t) => if t then (255, 128, 0) else (0, 0, 0)
  }

  // ---------------------------------------------------------------------------
  // The `02X` format

  predicate IsHexChar(c: char)
  {
    '0' <= c <= '9' || 'A' <= c <= 'F'
  }

  function HexDigit(d: nat): (c: char)
    requires d < 16
    ensures IsHexChar(c)
  {
    if d < 10 then (48 + d) as char else (55 + d) as char
  }

  /** The value of a hex digit; anything else reads as 0. */
  function HexValue(c: char): (v: nat)
    ensures IsHexChar(c) ==> v < 16 && HexDigit(v) == c
  {
    if '0' <= c <= '9' then c as int - 48 else if 'A' <= c <= 'F' then c as int - 55 else 0
  }

  /** Upper-case hex digits of `n`, without leading zeros. */
  function Hex(n: nat): (s: seq<char>)
    ensures |s| >= 1 && forall i :: 0 <= i < |s| ==> IsHexChar(s[i])
    ensures n < 16 <==> |s| == 1
    decreases n
  {
    if n < 16 then [HexDigit(n)] else Hex(n / 16) + [HexDigit(n % 16)]
  }

  /** Python's `format(n, "02X")`: upper-case hex padded with zeros to two characters;
      a negative number gets a minus sign in front of its magnitude's digits. */
  function Format02(n: int): seq<char>
  {
    if n < 0 then ['-'] + Hex(-n)
    else if n < 16 then ['0', HexDigit(n)]
    else Hex(n)
  }

  predicate InByte(n: int)
  {
    0 <= n < 256
  }

  /** A component in 0..255 is formatted as exactly two hex digits that read back as it. */
  lemma Format02Byte(n: int)
    requires InByte(n)
    ensures |Format02(n)| == 2 && IsHexChar(Format02(n)[0]) && IsHexChar(Format02(n)[1])
    ensures 16 * HexValue(Format02(n)[0]) + HexValue(Format02(n)[1]) == n
  {
    if n >= 16 {
      assert Hex(n) == Hex(n / 16) + [HexDigit(n % 16)];
      assert Hex(n / 16) == [HexDigit(n / 16)];
    }
  }

  /** A component outside 0..255 is not formatted as two hex digits: a negative one
      starts with a minus sign, a larger one takes three digits or more, so the six
      characters of its pixel no longer read back as a colour. */
  lemma {:induction false} Format02NotByte(n: int)
    requires !InByte(n)
    ensures !(|Format02(n)| == 2 && IsHexChar(Format02(n)[0]) && IsHexChar(Format02(n)[1]))
  {
    if n >= 0 {
      assert Hex(n) == Hex(n / 16) + [HexDigit(n % 16)];
      assert n / 16 >= 16;
    }
  }

  // ---------------------------------------------------------------------------
  // The frame line

  /** The six characters one pixel contributes. */
  function Encode(p: Pixel): seq<char>
  {
    var (r, g, b) := ColorOf(p);
    Format02(r) + Format02(g) + Format02(b)
  }

  /** A non-tuple pixel is sent as orange when truthy and as black when falsy. */
  lemma FlagEncodings()
    ensures Encode(Flag(true)) == "FF8000" && Encode(Flag(false)) == "000000"
  {
    assert Format02(255) == Hex(255) == Hex(15) + [HexDigit(15)];
    assert Format02(128) == Hex(128) == Hex(8) + [HexDigit(0)];
  }

  predicate PixelInRange(p: Pixel)
  {
    InByte(ColorOf(p).0) && InByte(ColorOf(p).1) && InByte(ColorOf(p).2)
  }

  /** The pixels of `buffer2d` visited by the loops of `render`: rows 0..h-1, in each
      row the first `w` cells. */
  function RowMajor(buffer: seq<seq<Pixel>>, w: nat, h: nat): (ps: seq<Pixel>)
    requires |buffer| >= h && forall y :: 0 <= y < h ==> |buffer[y]| >= w
    ensures |ps| == h * w
    decreases h
  {
    if h == 0 then [] else RowMajor(buffer, w, h - 1) + buffer[h - 1][..w]
  }

  /** The encoded pixels, concatenated. */
  function Body(ps: seq<Pixel>): seq<char>
    decreases |ps|
  {
    if ps == [] then [] else Encode(ps[0]) + Body(ps[1..])
  }

  /** The line `render` writes: the body and a newline. */
  function Line(buffer: seq<seq<Pixel>>, w: nat, h: nat): seq<char>
    requires |buffer| >= h && forall y :: 0 <= y < h ==> |buffer[y]| >= w
  {
    Body(RowMajor(buffer, w, h)) + ['\n']
  }

  /** Reads six hex digits back as one colour. */
  function DecodeOne(s: seq<char>): (int, int, int)
    requires |s| == 6
  {
    (16 * HexValue(s[0]) + HexValue(s[1]),
     16 * HexValue(s[2]) + HexValue(s[3]),
     16 * HexValue(s[4]) + HexValue(s[5]))
  }

  predicate AllHex(s: seq<char>)
  {
    forall i :: 0 <= i < |s| ==> IsHexChar(s[i])
  }

  /** Reads a body back as the list of colours, six digits at a time; a trailing
      group shorter than six is dropped. */
  function Decode(s: seq<char>): (cs: seq<(int, int, int)>)
    ensures 6 * |cs| <= |s| < 6 * |cs| + 6
    decreases |s|
  {
    if |s| < 6 then [] else [DecodeOne(s[..6])] + Decode(s[6..])
  }

  /** An in-range pixel is six hex digits that read back as its colour. */
  lemma EncodeOne(p: Pixel)
    requires PixelInRange(p)
    ensures |Encode(p)| == 6 && AllHex(Encode(p)) && DecodeOne(Encode(p)) == ColorOf(p)
  {
    var (r, g, b) := ColorOf(p);
    Format02Byte(r);
    Format02Byte(g);
    Format02Byte(b);
  }

  /** The body of two pixel lists is the two bodies, one after the other. */
  lemma {:induction false} BodyConcat(a: seq<Pixel>, b: seq<Pixel>)
    ensures Body(a + b) == Body(a) + Body(b)
    decreases |a|
  {
    if a != [] {
      calc {
        Body(a + b);
      == { assert (a + b)[0] == a[0] && (a + b)[1..] == a[1..] + b; }
        Encode(a[0]) + Body(a[1..] + b);
      == { BodyConcat(a[1..], b); }
        Encode(a[0]) + (Body(a[1..]) + Body(b));
      ==
        (Encode(a[0]) + Body(a[1..])) + Body(b);
      }
    } else {
      assert a + b == b;
    }
  }

  /** Appending a pixel appends its six characters. */
  lemma {:induction false} BodyAppend(ps: seq<Pixel>, p: Pixel)
    ensures Body(ps + [p]) == Body(ps) + Encode(p)
    decreases |ps|
  {
    if ps == [] {
      assert [p][1..] == [];
    } else {
      assert (ps + [p])[1..] == ps[1..] + [p];
      BodyAppend(ps[1..], p);
    }
  }

  /** One more pixel of a row's prefix adds its encoding at the end. */
  lemma BodyTakeNext(row: seq<Pixel>, x: nat)
    requires x < |row|
    ensures Body(row[..x + 1]) == Body(row[..x]) + Encode(row[x])
  {
    assert row[..x + 1] == row[..x] + [row[x]];
    BodyAppend(row[..x], row[x]);
  }

  /** When every pixel is in range, the body is six hex digits per pixel. */
  lemma {:induction false} BodyShape(ps: seq<Pixel>)
    requires forall i :: 0 <= i < |ps| ==> PixelInRange(ps[i])
    ensures |Body(ps)| == 6 * |ps| && AllHex(Body(ps))
    decreases |ps|
  {
    if ps != [] {
      EncodeOne(ps[0]);
      BodyShape(ps[1..]);
    }
  }

  /** When every pixel is in range, the body reads back as the pixels' colours, in
      order: the line is a lossless encoding of the frame. */
  lemma {:induction false} BodyRoundTrip(ps: seq<Pixel>)
    requires forall i :: 0 <= i < |ps| ==> PixelInRange(ps[i])
    ensures Decode(Body(ps)) == seq(|ps|, i requires 0 <= i < |ps| => ColorOf(ps[i]))
    decreases |ps|
  {
    if ps != [] {
      EncodeOne(ps[0]);
      BodyShape(ps);
      BodyRoundTrip(ps[1..]);
      var s := Body(ps);
      assert s[..6] == Encode(ps[0]);
      assert s[6..] == Body(ps[1..]);
      assert Decode(s) == [DecodeOne(s[..6])] + Decode(s[6..]);
    }
  }

  /** Pixel (x, y) of the buffer is pixel `y * w + x` of the line. */
  lemma {:induction false} RowMajorIndex(buffer: seq<seq<Pixel>>, w: nat, h: nat, x: nat, y: nat)
    requires |buffer| >= h && forall r :: 0 <= r < h ==> |buffer[r]| >= w
    requires x < w && y < h
    ensures 0 <= y * w + x < h * w && RowMajor(buffer, w, h)[y * w + x] == buffer[y][x]
    decreases h
  {
    var prev := RowMajor(buffer, w, h - 1);
    assert |prev| == (h - 1) * w;
    if y < h - 1 {
      RowMajorIndex(buffer, w, h - 1, x, y);
    } else {
      assert y * w == (h - 1) * w;
    }
  }

  /** The body of the loops of `render` for one pixel: its three components, then
      their `02X` forms. */
  method EncodePixel(v: Pixel) returns (s: seq<char>)
    ensures s == Encode(v)
  {
    var r, g, b;
    if v.Tuple? {
      r, g, b := v.r, v.g, v.b;
    } else if v.truthy {
      r, g, b := 255, 128, 0;
    } else {
      r, g, b := 0, 0, 0;
    }
    s := Format02(r) + Format02(g) + Format02(b);
  }

  /** One more row of the window appends that row's encoding. */
  lemma BodyNextRow(buffer: seq<seq<Pixel>>, w: nat, y: nat)
    requires |buffer| > y && forall r :: 0 <= r <= y ==> |buffer[r]| >= w
    ensures Body(RowMajor(buffer, w, y + 1)) == Body(RowMajor(buffer, w, y)) + Body(buffer[y][..w])
  {
    BodyConcat(RowMajor(buffer, w, y), buffer[y][..w]);
  }

  /** The inner loop of `render`: the first `w` pixels of one row, encoded in order. */
  method EncodeRow(row: seq<Pixel>, w: nat) returns (s: seq<char>)
    requires |row| >= w
    ensures s == Body(row[..w])
  {
    s := [];
    var x := 0;
    while x < w
      invariant 0 <= x <= w && s == Body(row[..x])
    {
      BodyTakeNext(row, x);
      var enc := EncodePixel(row[x]);
      s := s + enc;
      x := x + 1;
    }
  }

  /** The loops of `render`: rows 0..h-1, each row's first `w` pixels encoded. */
  method EncodeFrame(buffer: seq<seq<Pixel>>, w: nat, h: nat) returns (out: seq<char>)
    requires |buffer| >= h && forall y :: 0 <= y < h ==> |buffer[y]| >= w
    ensures out == Body(RowMajor(buffer, w, h))
  {
    out := [];
    var y := 0;
    while y < h
      invariant 0 <= y <= h && out == Body(RowMajor(buffer, w, y))
    {
      var line := EncodeRow(buffer[y], w);
      BodyNextRow(buffer, w, y);
      out := out + line;
      y := y + 1;
    }
  }

  // ---------------------------------------------------------------------------
  // The renderer

  /** `USBFrameRenderer`: the frame size and whether a device is open (`open_device`
      succeeded). */
  class FrameRenderer {
    const width: nat
    const height: nat
    const deviceOpen: bool

    /** `__init__`: the size and the outcome of `open_device`. */
    constructor (width: nat := 10, height: nat := 20, deviceOpen: bool)
      ensures this.width == width && this.height == height && this.deviceOpen == deviceOpen
    {
      this.width := width;
      this.height := height;
      this.deviceOpen := deviceOpen;
    }

    /** `render`: nothing without a device; otherwise the line written to it. */
    method Render(buffer: seq<seq<Pixel>>) returns (sent: Option<seq<char>>)
      requires |buffer| >= height && forall y :: 0 <= y < height ==> |buffer[y]| >= width
      ensures !deviceOpen <==> sent.None?
      ensures deviceOpen ==> sent == Some(Line(buffer, width, height))
    {
      if !deviceOpen {
        return None;
      }
      var out := EncodeFrame(buffer, width, height);
      sent := Some(out + ['\n']);
    }
  }

  /** The line of a frame whose pixels are all in range is `6 * width * height` hex
      digits and a newline. */
  lemma LineLength(buffer: seq<seq<Pixel>>, w: nat, h: nat)
    requires |buffer| >= h && forall r :: 0 <= r < h ==> |buffer[r]| >= w
    requires forall r, c :: 0 <= r < h && 0 <= c < w ==> PixelInRange(buffer[r][c])
    ensures |Line(buffer, w, h)| == 6 * (h * w) + 1 && Line(buffer, w, h)[6 * (h * w)] == '\n'
    ensures AllHex(Line(buffer, w, h)[..6 * (h * w)])
  {
    RowMajorInRange(buffer, w, h);
    BodyShape(RowMajor(buffer, w, h));
    assert Line(buffer, w, h)[..6 * (h * w)] == Body(RowMajor(buffer, w, h));
  }

  /** Pixel (x, y) reads back from the six digits at `6 * (y * width + x)` of the line. */
  lemma PixelReadsBack(buffer: seq<seq<Pixel>>, w: nat, h: nat, x: nat, y: nat)
    requires |buffer| >= h && forall r :: 0 <= r < h ==> |buffer[r]| >= w
    requires forall r, c :: 0 <= r < h && 0 <= c < w ==> PixelInRange(buffer[r][c])
    requires x < w && y < h
    ensures var colours := Decode(Body(RowMajor(buffer, w, h)));
            0 <= y * w + x < |colours| && colours[y * w + x] == ColorOf(buffer[y][x])
  {
    RowMajorInRange(buffer, w, h);
    BodyRoundTrip(RowMajor(buffer, w, h));
    RowMajorIndex(buffer, w, h, x, y);
  }

  /** Every pixel of the row-major list is a pixel of the buffer's h x w window. */
  lemma {:induction false} RowMajorPixel(buffer: seq<seq<Pixel>>, w: nat, h: nat, i: nat)
    requires |buffer| >= h && forall r :: 0 <= r < h ==> |buffer[r]| >= w
    requires i < h * w
    ensures exists r, c :: 0 <= r < h && 0 <= c < w && RowMajor(buffer, w, h)[i] == buffer[r][c]
    decreases h
  {
    var prev := RowMajor(buffer, w, h - 1);
    if i < |prev| {
      RowMajorPixel(buffer, w, h - 1, i);
    } else {
      var c := i - |prev|;
      assert RowMajor(buffer, w, h)[i] == buffer[h - 1][c];
    }
  }

  /** A window of in-range pixels gives a row-major list of in-range pixels. */
  lemma RowMajorInRange(buffer: seq<seq<Pixel>>, w: nat, h: nat)
    requires |buffer| >= h && forall r :: 0 <= r < h ==> |buffer[r]| >= w
    requires forall r, c :: 0 <= r < h && 0 <= c < w ==> PixelInRange(buffer[r][c])
    ensures forall i :: 0 <= i < |RowMajor(buffer, w, h)| ==> PixelInRange(RowMajor(buffer, w, h)[i])
  {
    forall i | 0 <= i < |RowMajor(buffer, w, h)|
      ensures PixelInRange(RowMajor(buffer, w, h)[i])
    {
      RowMajorPixel(buffer, w, h, i);
    }
  }

  /** The colours `frame_to_rgb` produces are always in range, so the frame it feeds to
      the device has the fixed layout of `LineLength` and `PixelReadsBack`. */
  lemma FrameColorsInRange(c: Cell, mode: string)
    ensures var (r, g, b) := Gameplay.CellColor(c, mode);
            PixelInRange(Tuple(r, g, b))
  {
    Gameplay.CellColorInRange(c, mode);
  }
}
