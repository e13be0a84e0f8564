/**
 * Turning a decoded JPEG into an image tensor (`imageToTensor` in ModelLoader.js).
 *
 * The JPEG decoder is a collaborator whose internals are not part of this model: all
 * that matters is what it hands back, a width, a height and an RGBA byte buffer.
 * The screen copies the red, green and blue bytes of every pixel into a fresh buffer
 * of `width * height * 3` bytes and wraps it in a tensor of shape
 * `[height, width, 3]`, dropping each pixel's alpha byte.
 */
module Pixels {

  newtype uint8 = x: int | 0 <= x < 0x100

  /** What the JPEG decoder produces: 4 bytes (R, G, B, A) per pixel, row by row. */
  datatype DecodedImage = DecodedImage(width: nat, height: nat, data: seq<uint8>)

  /** A rank-3 tensor of bytes with shape `[height, width, channels]`. */
  datatype Tensor3 = Tensor3(height: nat, width: nat, channels: nat, values: seq<uint8>)

  /**
   * Byte `k` of the decoded buffer as the RGB buffer receives it. Indexing past the
   * end of a typed array yields `undefined`, and storing `undefined` into a
   * `Uint8Array` stores 0.
   */
  function ByteAt(data: seq<uint8>, k: nat): uint8 {
    if k < |data| then data[k] else 0
  }

  /** The RGB bytes of the first `n` pixels of an RGBA buffer, pixel by pixel. */
  function StripAlpha(data: seq<uint8>, n: nat): (rgb: seq<uint8>)
    ensures |rgb| == 3 * n
  {
    if n == 0 then []
    else
      var offset := 4 * (n - 1);
      StripAlpha(data, n - 1) + [ByteAt(data, offset), ByteAt(data, offset + 1), ByteAt(data, offset + 2)]
  }

  /** The alpha bytes of the first `n` pixels of an RGBA buffer. */
  function Alphas(data: seq<uint8>, n: nat): (alpha: seq<uint8>)
    ensures |alpha| == n
  {
    if n == 0 then [] else Alphas(data, n - 1) + [ByteAt(data, 4 * (n - 1) + 3)]
  }

  /** The RGBA buffer made of RGB triples `rgb` and one alpha byte per pixel. */
  function Rgba(rgb: seq<uint8>, alpha: seq<uint8>): (data: seq<uint8>)
    requires |rgb| == 3 * |alpha|
    ensures |data| == 4 * |alpha|
  {
    if alpha == [] then []
    else
      Rgba(rgb[..|rgb| - 3], alpha[..|alpha| - 1]) + rgb[|rgb| - 3..] + [alpha[|alpha| - 1]]
  }

  /** The number of pixels of a decoded image. */
  function PixelCount(decoded: DecodedImage): nat {
    decoded.width * decoded.height
  }

  /** The tensor `imageToTensor` builds from a decoded image. */
  function TensorOf(decoded: DecodedImage): (t: Tensor3)
    ensures t.height == decoded.height && t.width == decoded.width && t.channels == 3
    ensures |t.values| == 3 * PixelCount(decoded)
  {
    Tensor3(decoded.height, decoded.width, 3, StripAlpha(decoded.data, PixelCount(decoded)))
  }

  /** The body of the loop: the colour bytes of the pixel at `offset` go to `buffer[i..i + 3]`. */
  method CopyPixel(buffer: array<uint8>, i: nat, data: seq<uint8>, offset: nat)
    requires i + 3 <= buffer.Length
    modifies buffer
    ensures buffer[..i + 3] == old(buffer[..i]) + [ByteAt(data, offset), ByteAt(data, offset + 1), ByteAt(data, offset + 2)]
    ensures buffer[i + 3..] == old(buffer[i + 3..])
  {
    buffer[i] := ByteAt(data, offset);
    buffer[i + 1] := ByteAt(data, offset + 1);
    buffer[i + 2] := ByteAt(data, offset + 2);
    assert buffer[..i + 3] == old(buffer[..i]) + [ByteAt(data, offset), ByteAt(data, offset + 1), ByteAt(data, offset + 2)];
  }

  /**
   * The alpha-stripping loop: `i` walks the RGB buffer in steps of 3 while `offset`
   * walks the decoded buffer in steps of 4.
   */
  method ImageToTensor(decoded: DecodedImage) returns (t: Tensor3)
    ensures t == TensorOf(decoded)
    ensures t.height == decoded.height && t.width == decoded.width && t.channels == 3
  {
    var width, height, data := decoded.width, decoded.height, decoded.data;
    var n := PixelCount(decoded);
    var buffer := new uint8[n * 3](_ => 0);
    var offset := 0;
    var i := 0;
    ghost var pixels := 0;
    while i < buffer.Length
      // i is a multiple of 3 and offset is 4 * (i / 3)
      invariant i == 3 * pixels && offset == 4 * pixels
      invariant pixels <= n && buffer.Length == 3 * n
      invariant buffer[..i] == StripAlpha(data, pixels)
      // every byte from `i` on is still the zero it was created with: each index is written once
      invariant forall k :: i <= k < buffer.Length ==> buffer[k] == 0
    {
      CopyPixel(buffer, i, data, offset);
      StripAlphaNext(data, pixels);
      offset := offset + 4;
      i := i + 3;
      pixels := pixels + 1;
    }
    assert buffer[..] == buffer[..i];
    t := Tensor3(height, width, 3, buffer[..]);
  }

  /** One more pixel appends its three colour bytes. */
  lemma StripAlphaNext(data: seq<uint8>, p: nat)
    ensures StripAlpha(data, p + 1) == StripAlpha(data, p) + [ByteAt(data, 4 * p), ByteAt(data, 4 * p + 1), ByteAt(data, 4 * p + 2)]
  {
  }

  /** Byte `c` of the RGB triple of pixel `p` is byte `c` of that pixel in the decoded buffer. */
  lemma {:induction false} StripAlphaPixel(data: seq<uint8>, n: nat, p: nat, c: nat)
    requires p < n && c < 3
    ensures StripAlpha(data, n)[3 * p + c] == ByteAt(data, 4 * p + c)
  {
    if p < n - 1 {
      StripAlphaPixel(data, n - 1, p, c);
    }
  }

  /**
   * When the decoded buffer holds at least `4 * n - 1` bytes every read is in range,
   * so the RGB buffer copies bytes 4p, 4p+1, 4p+2 of pixel p exactly.
   */
  lemma StripAlphaCopiesRgb(data: seq<uint8>, n: nat, p: nat, c: nat)
    requires p < n && c < 3 && 4 * n <= |data| + 1
    ensures StripAlpha(data, n)[3 * p + c] == data[4 * p + c]
  {
    StripAlphaPixel(data, n, p, c);
  }

  /** Alpha bytes are never read: buffers that differ only in them give the same RGB bytes. */
  lemma {:induction false} AlphaNeverRead(data: seq<uint8>, other: seq<uint8>, n: nat)
    requires |data| == |other|
    requires forall k :: 0 <= k < |data| && k % 4 != 3 ==> data[k] == other[k]
    ensures StripAlpha(data, n) == StripAlpha(other, n)
  {
    if n > 0 {
      AlphaNeverRead(data, other, n - 1);
      var offset := 4 * (n - 1);
      assert offset % 4 == 0 && (offset + 1) % 4 == 1 && (offset + 2) % 4 == 2;
    }
  }

  /** Appending bytes after the first `m` pixels does not change their RGB bytes. */
  lemma {:induction false} StripAlphaExtend(data: seq<uint8>, more: seq<uint8>, m: nat)
    requires 4 * m <= |data|
    ensures StripAlpha(data + more, m) == StripAlpha(data, m)
  {
    if m > 0 {
      StripAlphaExtend(data, more, m - 1);
    }
  }

  /** Stripping the alpha bytes from an RGBA buffer gives back its RGB triples. */
  lemma {:induction false} StripAlphaOfRgba(rgb: seq<uint8>, alpha: seq<uint8>)
    requires |rgb| == 3 * |alpha|
    ensures StripAlpha(Rgba(rgb, alpha), |alpha|) == rgb
  {
    if alpha != [] {
      var n := |alpha|;
      var rgb', alpha' := rgb[..|rgb| - 3], alpha[..n - 1];
      var front := Rgba(rgb', alpha');
      var data := Rgba(rgb, alpha);
      assert data == front + (rgb[|rgb| - 3..] + [alpha[n - 1]]);
      StripAlphaExtend(front, rgb[|rgb| - 3..] + [alpha[n - 1]], n - 1);
      StripAlphaOfRgba(rgb', alpha');
      assert rgb == rgb' + rgb[|rgb| - 3..];
    }
  }

  /** The RGB triples and the alpha bytes together restore the first `m` pixels of a buffer. */
  lemma {:induction false} RgbaOfStripAlpha(data: seq<uint8>, m: nat)
    requires 4 * m <= |data|
    ensures Rgba(StripAlpha(data, m), Alphas(data, m)) == data[..4 * m]
  {
    if m > 0 {
      RgbaOfStripAlpha(data, m - 1);
      var rgb, alpha := StripAlpha(data, m), Alphas(data, m);
      assert rgb[..|rgb| - 3] == StripAlpha(data, m - 1);
      assert alpha[..|alpha| - 1] == Alphas(data, m - 1);
      assert data[..4 * m] == data[..4 * (m - 1)] + data[4 * (m - 1)..4 * m];
    }
  }

  /** Nothing but alpha is lost: a well-formed RGBA buffer is rebuilt from its RGB bytes and alphas. */
  lemma OnlyAlphaIsLost(decoded: DecodedImage)
    requires |decoded.data| == 4 * (decoded.width * decoded.height)
    ensures var n := decoded.width * decoded.height;
      Rgba(TensorOf(decoded).values, Alphas(decoded.data, n)) == decoded.data
  {
    var n := decoded.width * decoded.height;
    RgbaOfStripAlpha(decoded.data, n);
    assert decoded.data[..4 * n] == decoded.data;
  }
}
