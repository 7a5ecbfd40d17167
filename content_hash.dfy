/**
 * The content-hash front end `calculate_md5_from_text` (utils/load.py): check
 * that the argument is text, normalise it, strip surrounding whitespace,
 * refuse what is left empty, encode it as UTF-8 and feed the buffer to MD5 in
 * slices of `chunk_size` bytes.  Every refusal is the value `None`.
 *
 * MD5 (RFC 1321) and Unicode normalisation (UAX #15) are not modelled: the
 * normaliser and the digest are parameters.  The MD5 object is modelled by
 * the bytes it has been fed, in order, since the digest after a series of
 * `update` calls depends only on their concatenation.
 */
module ContentHash {
  import opened Common
  import opened TextProcessing

  /** A content hash: the hex digest, or Python's `None` for text that cannot be hashed. */
  type Md5 = Option<string>

  /** The argument as `isinstance(text, str)` sees it. */
  datatype TextArg = Text(s: string) | NotText

  /** `unicodedata.normalize(form, ·)` for the chosen form; `None` when the form name is rejected. */
  type Normalizer = string -> Option<string>

  /** `hashlib.md5(data).hexdigest().lower()` of the whole byte stream. */
  type Md5Digest = seq<Byte> -> string

  /** The UTF-8 encoding of one Unicode scalar value. */
  function Utf8Char(c: char): (b: seq<Byte>)
    ensures 1 <= |b| <= 4
  {
    var n := c as int;
    if n < 0x80 then [n]
    else if n < 0x800 then [0xC0 + n / 0x40, 0x80 + n % 0x40]
    else if n < 0x1_0000 then [0xE0 + n / 0x1000, 0x80 + n / 0x40 % 0x40, 0x80 + n % 0x40]
    else [0xF0 + n / 0x4_0000, 0x80 + n / 0x1000 % 0x40, 0x80 + n / 0x40 % 0x40, 0x80 + n % 0x40]
  }

  /** `s.encode('utf-8')`: at least one byte per character. */
  function Utf8(s: string): (b: seq<Byte>)
    ensures |s| <= |b| <= 4 * |s|
  {
    if s == [] then [] else Utf8Char(s[0]) + Utf8(s[1..])
  }

  /** The text the hash is taken over, or `None` when the argument is refused before hashing. */
  function HashedText(arg: TextArg, normalize: Normalizer, cc: CharClasses, strip: bool): Option<string>
  {
    match arg
    case NotText => None
    case Text(s) =>
      match normalize(s)
      case None => None
      case Some(n) =>
        var t := if strip then Strip(cc, n) else n;
        if t == [] then None else Some(t)
  }

  /**
   * The value `calculate_md5_from_text` returns.  A zero `chunk_size` makes
   * `range` raise, which the function turns into `None`; a negative one makes
   * the range empty, so nothing is fed and the digest is that of no bytes.
   */
  function ContentMd5(arg: TextArg, normalize: Normalizer, cc: CharClasses, strip: bool,
                      chunkSize: int, md5: Md5Digest): Md5
  {
    match HashedText(arg, normalize, cc, strip)
    case None => None
    case Some(t) =>
      if chunkSize == 0 then None
      else if chunkSize < 0 then Some(md5([]))
      else Some(md5(Utf8(t)))
  }

  /**
   * The streaming computation: the buffer is fed to the hasher slice by slice.
   * `chunks` records the slices; each is non-empty, none is longer than
   * `chunkSize`, and together they are exactly the encoded buffer.
   */
  method CalculateMd5(arg: TextArg, normalize: Normalizer, cc: CharClasses, strip: bool,
                      chunkSize: int, md5: Md5Digest)
    returns (r: Md5, ghost chunks: seq<seq<Byte>>)
    ensures r == ContentMd5(arg, normalize, cc, strip, chunkSize, md5)
    ensures chunkSize > 0 && HashedText(arg, normalize, cc, strip).Some? ==>
              && Flatten(chunks) == Utf8(HashedText(arg, normalize, cc, strip).value)
              && forall c :: c in chunks ==> 0 < |c| <= chunkSize
  {
    chunks := [];
    if arg.NotText? {
      return None, chunks;
    }
    var normalized := normalize(arg.s);
    if normalized.None? {
      return None, chunks;
    }
    var processed := normalized.value;
    if strip {
      processed := Strip(cc, processed);
    }
    if processed == [] {
      return None, chunks;
    }
    if chunkSize == 0 {
      return None, chunks;
    }
    var buffer := Utf8(processed);
    var fed: seq<Byte> := [];
    if chunkSize > 0 {
      fed, chunks := FeedInChunks(buffer, chunkSize);
    }
    r := Some(md5(fed));
  }

  /**
   * The loop `for i in range(0, len(buffer), chunk_size): md5.update(buffer[i:i + chunk_size])`:
   * returns what the hasher has been fed, which is the whole buffer, and the
   * slices it was fed in.
   */
  method FeedInChunks(buffer: seq<Byte>, chunkSize: int) returns (fed: seq<Byte>, ghost chunks: seq<seq<Byte>>)
    requires chunkSize > 0
    ensures fed == buffer
    ensures Flatten(chunks) == fed
    ensures forall c :: c in chunks ==> 0 < |c| <= chunkSize
  {
    fed, chunks := [], [];
    var i := 0;
    while i < |buffer|
      invariant 0 <= i
      invariant fed == buffer[..Min(i, |buffer|)]
      invariant Flatten(chunks) == fed
      invariant forall c :: c in chunks ==> 0 < |c| <= chunkSize
      decreases |buffer| - i
    {
      var chunk := buffer[i..Min(i + chunkSize, |buffer|)];
      FlattenSnoc(chunks, chunk);
      chunks := chunks + [chunk];
      fed := fed + chunk;
      i := i + chunkSize;
    }
  }

  /**
   * With stripping on, the hash is `None` exactly when the normalised text is
   * blank (or the chunk size is zero): content made only of whitespace has no hash.
   */
  lemma BlankTextHasNoMd5(s: string, normalize: Normalizer, cc: CharClasses, chunkSize: int, md5: Md5Digest)
    requires normalize(s).Some?
    ensures ContentMd5(Text(s), normalize, cc, true, chunkSize, md5) == None <==>
              AllSpace(cc, normalize(s).value) || chunkSize == 0
  {
    StripEmptyIffBlank(cc, normalize(s).value);
  }

  /** Refusals: a non-text argument or a rejected normalisation form gives `None`. */
  lemma RefusedArgumentsHaveNoMd5(arg: TextArg, normalize: Normalizer, cc: CharClasses, strip: bool,
                                  chunkSize: int, md5: Md5Digest)
    requires arg.NotText? || normalize(arg.s).None?
    ensures ContentMd5(arg, normalize, cc, strip, chunkSize, md5) == None
  {
  }

  /**
   * The hash depends only on the stripped normalised text: two texts whose
   * normalised forms differ only in surrounding whitespace hash the same.
   */
  lemma SurroundingSpaceIgnored(s1: string, s2: string, pre: string, post: string,
                                normalize: Normalizer, cc: CharClasses, chunkSize: int, md5: Md5Digest)
    requires AllSpace(cc, pre) && AllSpace(cc, post)
    requires normalize(s2).Some? && normalize(s1) == Some(pre + normalize(s2).value + post)
    ensures ContentMd5(Text(s1), normalize, cc, true, chunkSize, md5) ==
            ContentMd5(Text(s2), normalize, cc, true, chunkSize, md5)
  {
    StripIgnoresSurroundingSpace(cc, pre, normalize(s2).value, post);
  }

  /**
   * With a positive chunk size the hash is the digest of the whole encoded
   * text, however the buffer is sliced: slicing does not change the result.
   */
  lemma ChunkSizeIrrelevant(arg: TextArg, normalize: Normalizer, cc: CharClasses, strip: bool,
                            size1: int, size2: int, md5: Md5Digest)
    requires size1 > 0 && size2 > 0
    ensures ContentMd5(arg, normalize, cc, strip, size1, md5) == ContentMd5(arg, normalize, cc, strip, size2, md5)
  {
  }

  /**
   * A negative chunk size feeds nothing: every hashable text gets the same
   * digest, that of the empty byte string.
   */
  lemma NegativeChunkSizeCollides(a: TextArg, b: TextArg, normalize: Normalizer, cc: CharClasses,
                                  strip: bool, chunkSize: int, md5: Md5Digest)
    requires chunkSize < 0
    requires HashedText(a, normalize, cc, strip).Some? && HashedText(b, normalize, cc, strip).Some?
    ensures ContentMd5(a, normalize, cc, strip, chunkSize, md5) == ContentMd5(b, normalize, cc, strip, chunkSize, md5)
  {
  }
}
