/**
 * The header sniff of the top toolbar (getImageType): the first four bytes
 * of a file, read as one big-endian 32-bit word, are looked up among known
 * image signatures to pick the format tag handed to the image loader.
 */
module ImageFormat {
  import opened Wrappers

  newtype uint8 = x: int | 0 <= x < 0x100
  newtype uint32 = x: int | 0 <= x < 0x1_0000_0000

  datatype Format = Jpeg | Png | Gif | Tiff | Bmp

  const ImageTypeJepg: uint32 := 0xFFD8FF
  const ImageTypeJpg1: uint32 := 0xFFD8FFE0
  const ImageTypeJpg2: uint32 := 0xFFD8FFE1
  const ImageTypeJpg3: uint32 := 0xFFD8FFE8
  const ImageTypePng: uint32 := 0x89504e47
  const ImageTypeGif: uint32 := 0x47494638
  const ImageTypeTiff: uint32 := 0x49492a00
  const ImageTypeBmp: uint32 := 0x424d

  /** The signature table as a lookup: the reference the switch is checked against. */
  const Signatures: map<uint32, Format> := map[
    ImageTypeJepg := Jpeg, ImageTypeJpg1 := Jpeg, ImageTypeJpg2 := Jpeg, ImageTypeJpg3 := Jpeg,
    ImageTypePng := Png, ImageTypeGif := Gif, ImageTypeTiff := Tiff, ImageTypeBmp := Bmp]

  /** The switch on the magic word, as written: every constant is compared with the whole word. */
  function ImageTypeAsWritten(magic: uint32): (r: Option<Format>)
    ensures r.Some? <==> magic in Signatures
    ensures r.Some? ==> r.value == Signatures[magic]
  {
    if magic == ImageTypeJepg || magic == ImageTypeJpg1 || magic == ImageTypeJpg2 || magic == ImageTypeJpg3 then Some(Jpeg)
    else if magic == ImageTypePng then Some(Png)
    else if magic == ImageTypeGif then Some(Gif)
    else if magic == ImageTypeTiff then Some(Tiff)
    else if magic == ImageTypeBmp then Some(Bmp)
    else None
  }

  /** The four bytes of a word, most significant first (the order QDataStream reads). */
  function WordBytes(w: uint32): (b: seq<uint8>)
    ensures |b| == 4
  {
    var x := w as int;
    [(x / 0x1000000) as uint8, (x / 0x10000 % 0x100) as uint8, (x / 0x100 % 0x100) as uint8, (x % 0x100) as uint8]
  }

  /**
   * QDataStream >> quint32 on the file: big-endian; a file shorter than four
   * bytes (or one that could not be opened, an empty header) reads as 0.
   */
  function ReadMagic(header: seq<uint8>): (w: uint32)
    ensures |header| < 4 ==> w == 0
    ensures |header| >= 4 ==> WordBytes(w) == header[..4]
  {
    if |header| < 4 then 0
    else
      var x := header[0] as int * 0x1000000 + header[1] as int * 0x10000 + header[2] as int * 0x100 + header[3] as int;
      WordBytesOfSum(header[0] as int, header[1] as int, header[2] as int, header[3] as int);
      x as uint32
  }

  lemma WordBytesOfSum(b0: int, b1: int, b2: int, b3: int)
    requires 0 <= b0 < 0x100 && 0 <= b1 < 0x100 && 0 <= b2 < 0x100 && 0 <= b3 < 0x100
    ensures var x := b0 * 0x1000000 + b1 * 0x10000 + b2 * 0x100 + b3;
      0 <= x < 0x1_0000_0000 &&
      x / 0x1000000 == b0 && x / 0x10000 % 0x100 == b1 && x / 0x100 % 0x100 == b2 && x % 0x100 == b3
  {
    DivBy(b0, b1 * 0x10000 + b2 * 0x100 + b3, 0x1000000);
    DivBy(b0 * 0x100 + b1, b2 * 0x100 + b3, 0x10000);
    DivBy(b0, b1, 0x100);
    DivBy(b0 * 0x10000 + b1 * 0x100 + b2, b3, 0x100);
    DivBy(b0 * 0x100 + b1, b2, 0x100);
  }

  /** Division by one of the byte weights recovers quotient and remainder. */
  lemma DivBy(q: int, r: int, d: int)
    requires d == 0x100 || d == 0x10000 || d == 0x1000000
    requires 0 <= r < d
    ensures (q * d + r) / d == q && (q * d + r) % d == r
  {
    if d == 0x100 {
      assert (q * 0x100 + r) / 0x100 == q;
    } else if d == 0x10000 {
      assert (q * 0x10000 + r) / 0x10000 == q;
    } else {
      assert (q * 0x1000000 + r) / 0x1000000 == q;
    }
  }

  /** Reading back the bytes of a word gives the word, whatever follows it. */
  lemma {:induction false} ReadMagicOfWordBytes(w: uint32, rest: seq<uint8>)
    ensures ReadMagic(WordBytes(w) + rest) == w
  {
    var x := w as int;
    var b := WordBytes(w) + rest;
    WordDigits(x);
    assert b[0] as int == x / 0x1000000 && b[1] as int == x / 0x10000 % 0x100;
    assert b[2] as int == x / 0x100 % 0x100 && b[3] as int == x % 0x100;
  }

  /** A 32-bit number is the sum of its four base-256 digits. */
  lemma WordDigits(x: int)
    requires 0 <= x < 0x1_0000_0000
    ensures x == x / 0x1000000 * 0x1000000 + x / 0x10000 % 0x100 * 0x10000 + x / 0x100 % 0x100 * 0x100 + x % 0x100
  {
    var q1 := x / 0x100;
    var q2 := x / 0x10000;
    assert x == q1 * 0x100 + x % 0x100;
    assert q2 == q1 / 0x100;
    assert q1 == q2 * 0x100 + q1 % 0x100;
    assert x / 0x1000000 == q2 / 0x100;
    assert q2 == x / 0x1000000 * 0x100 + q2 % 0x100;
  }

  /**
   * The switch as evidently intended: IMAGE_TYPE_JEPG (0xFFD8FF, three bytes)
   * and IMAGE_TYPE_BMP (0x424D, two bytes) are prefixes of the header, so a
   * word is JPEG when its top three bytes are FF D8 FF (which covers the
   * three JPG constants) and BMP when its top two bytes are "BM".
   */
  function ImageType(magic: uint32): (r: Option<Format>)
    ensures r == Some(Jpeg) <==> magic as int / 0x100 == ImageTypeJepg as int
    ensures r == Some(Bmp) <==> magic as int / 0x10000 == ImageTypeBmp as int
    ensures r == Some(Png) <==> magic == ImageTypePng
    ensures r == Some(Gif) <==> magic == ImageTypeGif
    ensures r == Some(Tiff) <==> magic == ImageTypeTiff
  {
    if magic as int / 0x100 == ImageTypeJepg as int then Some(Jpeg)
    else if magic == ImageTypePng then Some(Png)
    else if magic == ImageTypeGif then Some(Gif)
    else if magic == ImageTypeTiff then Some(Tiff)
    else if magic as int / 0x10000 == ImageTypeBmp as int then Some(Bmp)
    else None
  }

  /**
   * getImageType on a file's leading bytes, with the intended prefix tests:
   * a header shorter than four bytes gets no tag, and otherwise each tag is
   * given exactly for its signature bytes, so every other header gets none.
   */
  function GetImageType(header: seq<uint8>): (r: Option<Format>)
    ensures |header| < 4 ==> r == None
    ensures r == Some(Jpeg) <==> |header| >= 4 && header[..3] == [0xFF, 0xD8, 0xFF]
    ensures r == Some(Bmp) <==> |header| >= 4 && header[..2] == [0x42, 0x4D]
    ensures r == Some(Png) <==> |header| >= 4 && header[..4] == [0x89, 0x50, 0x4E, 0x47]
    ensures r == Some(Gif) <==> |header| >= 4 && header[..4] == [0x47, 0x49, 0x46, 0x38]
    ensures r == Some(Tiff) <==> |header| >= 4 && header[..4] == [0x49, 0x49, 0x2A, 0x00]
  {
    if |header| < 4 then None
    else
      var w := ReadMagic(header);
      WordPrefixes(w);
      assert header[..3] == WordBytes(w)[..3] && header[..2] == WordBytes(w)[..2];
      WordIsItsBytes(w, ImageTypePng);
      WordIsItsBytes(w, ImageTypeGif);
      WordIsItsBytes(w, ImageTypeTiff);
      ImageType(w)
  }

  /** Two words are equal exactly when their bytes are. */
  lemma WordIsItsBytes(w: uint32, u: uint32)
    ensures w == u <==> WordBytes(w) == WordBytes(u)
  {
    if WordBytes(w) == WordBytes(u) {
      ReadMagicOfWordBytes(w, []);
      ReadMagicOfWordBytes(u, []);
      assert WordBytes(w) + [] == WordBytes(u) + [];
    }
  }

  /** The top three and top two bytes of a word, as numbers. */
  lemma WordPrefixes(w: uint32)
    ensures var b := WordBytes(w);
      w as int / 0x100 == b[0] as int * 0x10000 + b[1] as int * 0x100 + b[2] as int &&
      w as int / 0x10000 == b[0] as int * 0x100 + b[1] as int
  {
    var x := w as int;
    assert x / 0x100 / 0x100 == x / 0x10000;
    assert x / 0x10000 / 0x100 == x / 0x1000000;
  }

  /**
   * Apart from the two short constants themselves, the intended switch gives
   * every tag the written one gives.
   */
  lemma IntendedExtendsWritten(magic: uint32)
    requires magic != ImageTypeJepg && magic != ImageTypeBmp
    ensures ImageTypeAsWritten(magic).Some? ==> ImageType(magic) == ImageTypeAsWritten(magic)
  {
  }

  /** A JPEG whose first segment is a quantisation table (FF D8 FF DB) gets no tag as written. */
  lemma JpegHeaderMissedAsWritten()
    ensures ImageTypeAsWritten(ReadMagic([0xFF, 0xD8, 0xFF, 0xDB])) == None
    ensures GetImageType([0xFF, 0xD8, 0xFF, 0xDB]) == Some(Jpeg)
  {
    assert ReadMagic([0xFF, 0xD8, 0xFF, 0xDB]) == 0xFFD8FFDB;
  }

  /** A BMP header ("BM" then the file size) gets no tag as written. */
  lemma BmpHeaderMissedAsWritten()
    ensures ImageTypeAsWritten(ReadMagic([0x42, 0x4D, 0x36, 0x00])) == None
    ensures GetImageType([0x42, 0x4D, 0x36, 0x00]) == Some(Bmp)
  {
    assert ReadMagic([0x42, 0x4D, 0x36, 0x00]) == 0x424D3600;
  }

  /** The written switch tags the word 00 FF D8 FF as JPEG: a header no JPEG file has. */
  lemma ShortJpegConstantMatchesOnlyLeadingZero()
    ensures ImageTypeAsWritten(ReadMagic([0x00, 0xFF, 0xD8, 0xFF])) == Some(Jpeg)
    ensures WordBytes(ImageTypeJepg)[0] == 0x00
  {
    assert ReadMagic([0x00, 0xFF, 0xD8, 0xFF]) == 0xFFD8FF;
  }
}
