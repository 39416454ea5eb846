/** A nullable Java reference: a file name slot or a bundle slot that may be null. */
module Optional {
  datatype Option<+T> = None | Some(value: T)
}

/**
 * The string handling EigenFaceCreator applies to image file names:
 * String.indexOf, String.lastIndexOf and toLowerCase, the file-type test of
 * computeBundle (lines 272-277) and the cache-name prefix of submitSet (line 177).
 */
module FileNames {
  import opened Optional

  /** String.indexOf(c), scanning from the front; IndexOfFinds states what it finds. */
  function IndexOf(s: string, c: char): (r: int)
    ensures -1 <= r < |s|
  {
    if |s| == 0 then -1
    else if s[0] == c then 0
    else
      var k := IndexOf(s[1..], c);
      if k < 0 then -1 else k + 1
  }

  /** IndexOf is the first position of c in s, or -1 exactly when s has no c. */
  lemma {:induction false} IndexOfFinds(s: string, c: char)
    ensures IndexOf(s, c) == -1 <==> c !in s
    ensures IndexOf(s, c) >= 0 ==> s[IndexOf(s, c)] == c && c !in s[..IndexOf(s, c)]
  {
    if |s| > 0 && s[0] != c {
      var tail := s[1..];
      IndexOfFinds(tail, c);
      var k := IndexOf(tail, c);
      assert s == [s[0]] + tail;
      if k >= 0 {
        assert s[..k + 1] == [s[0]] + tail[..k];
      }
    }
  }

  /** String.lastIndexOf(c), scanning from the end; LastIndexOfFinds states what it finds. */
  function LastIndexOf(s: string, c: char): (r: int)
    ensures -1 <= r < |s|
  {
    if |s| == 0 then -1
    else if s[|s| - 1] == c then |s| - 1
    else LastIndexOf(s[..|s| - 1], c)
  }

  /** LastIndexOf is the last position of c in s, or -1 exactly when s has no c. */
  lemma {:induction false} LastIndexOfFinds(s: string, c: char)
    ensures LastIndexOf(s, c) == -1 <==> c !in s
    ensures LastIndexOf(s, c) >= 0 ==> s[LastIndexOf(s, c)] == c && c !in s[LastIndexOf(s, c) + 1..]
  {
    if |s| > 0 && s[|s| - 1] == c {
      assert s[|s|..] == [];
    } else if |s| > 0 {
      var init := s[..|s| - 1];
      LastIndexOfFinds(init, c);
      var k := LastIndexOf(init, c);
      assert LastIndexOf(s, c) == k;
      assert s == init + [s[|s| - 1]];
      if k >= 0 {
        assert s[k + 1..] == init[k + 1..] + [s[|s| - 1]];
      }
    }
  }

  /** Lower-casing of one character, for the letters A-Z. */
  function LowerChar(ch: char): char
  {
    if 'A' <= ch <= 'Z' then (ch as int + 32) as char else ch
  }

  /** String.toLowerCase on ASCII letters; every other character is kept. */
  function ToLower(s: string): (r: string)
    ensures |r| == |s|
  {
    seq(|s|, i requires 0 <= i < |s| => LowerChar(s[i]))
  }

  /**
   * The lower-cased text after the last '.' of name (the whole lower-cased
   * name when it has no '.'), read off from the end of name.
   * ExtensionInJavaOrder shows it is what computeBundle computes by
   * lower-casing, finding the last '.' and cutting after it.
   */
  function Extension(name: string): (ext: string)
    ensures |ext| <= |name|
  {
    if |name| == 0 || name[|name| - 1] == '.' then ""
    else Extension(name[..|name| - 1]) + [LowerChar(name[|name| - 1])]
  }

  /** The image readers of computeBundle: JPGFile and PPMFile. */
  datatype Reader = JpgReader | PpmReader

  /** The file-type test of computeBundle (lines 272-277): jpg/jpeg and ppm/pnm, in any letter case. */
  function ReaderFor(name: string): (reader: Option<Reader>)
    ensures reader.Some? <==> Extension(name) in {"jpg", "jpeg", "ppm", "pnm"}
    ensures reader == Some(JpgReader) <==> Extension(name) in {"jpg", "jpeg"}
  {
    var ext := Extension(name);
    if ext == "jpg" || ext == "jpeg" then Some(JpgReader)
    else if ext == "ppm" || ext == "pnm" then Some(PpmReader)
    else None
  }

  /** The part of name before its first '.', as appended to the cache name (line 177). */
  function CachePrefix(name: string): (prefix: string)
    requires '.' in name
    ensures '.' !in prefix && |prefix| < |name|
    ensures name == prefix + name[|prefix|..] && name[|prefix|] == '.'
  {
    IndexOfFinds(name, '.');
    name[..IndexOf(name, '.')]
  }

  /** Lower-casing one more character extends the lower-cased string by it. */
  lemma ToLowerSnoc(s: string)
    requires |s| > 0
    ensures ToLower(s) == ToLower(s[..|s| - 1]) + [LowerChar(s[|s| - 1])]
  {
  }

  /** Lower-casing does not move the last '.'. */
  lemma {:induction false} LastDotOfLower(s: string)
    ensures LastIndexOf(ToLower(s), '.') == LastIndexOf(s, '.')
  {
    if |s| > 0 {
      var init := s[..|s| - 1];
      LastDotOfLower(init);
      ToLowerSnoc(s);
      assert ToLower(s)[..|s| - 1] == ToLower(init);
    }
  }

  /** Extension is the lower-cased text after the last '.' of name. */
  lemma {:induction false} ExtensionAfterLastDot(name: string)
    ensures Extension(name) == ToLower(name)[LastIndexOf(name, '.') + 1..]
  {
    if |name| > 0 {
      var init := name[..|name| - 1];
      ToLowerSnoc(name);
      if name[|name| - 1] != '.' {
        ExtensionAfterLastDot(init);
        var d := LastIndexOf(init, '.');
        assert ToLower(name)[d + 1..] == ToLower(init)[d + 1..] + [LowerChar(name[|name| - 1])];
      }
    }
  }

  /** Extension agrees with computeBundle's order: lower-case, then take what follows the last '.'. */
  lemma ExtensionInJavaOrder(name: string)
    ensures Extension(name) == ToLower(name)[LastIndexOf(ToLower(name), '.') + 1..]
  {
    LastDotOfLower(name);
    ExtensionAfterLastDot(name);
  }

  /**
   * The reader computeBundle picks (lines 272-277), in its own order: the
   * name is lower-cased, cut after its last '.', and the rest compared with
   * "jpg" and "jpeg", then with "ppm" and "pnm".
   */
  lemma ReaderForInJavaOrder(name: string)
    ensures var temp := ToLower(name)[LastIndexOf(ToLower(name), '.') + 1..];
      ReaderFor(name) ==
        if temp == "jpg" || temp == "jpeg" then Some(JpgReader)
        else if temp == "ppm" || temp == "pnm" then Some(PpmReader)
        else None
  {
    ExtensionInJavaOrder(name);
  }

  /**
   * A name of the form stem.ext with no '.' in ext has the lower-cased ext as
   * its extension, whatever the stem holds.
   */
  lemma {:induction false} ExtensionOfDottedName(stem: string, ext: string)
    requires '.' !in ext
    ensures Extension(stem + "." + ext) == ToLower(ext)
  {
    var name := stem + "." + ext;
    if |ext| > 0 {
      var init := ext[..|ext| - 1];
      assert name[..|name| - 1] == stem + "." + init;
      assert name[|name| - 1] == ext[|ext| - 1];
      ExtensionOfDottedName(stem, init);
      ToLowerSnoc(ext);
    }
  }

  /** A name without any '.' is its own extension, so a file called "JPEG" reads as a JPG image. */
  lemma {:induction false} UndottedNameIsExtension(name: string)
    requires '.' !in name
    ensures Extension(name) == ToLower(name)
  {
    if |name| > 0 {
      var init := name[..|name| - 1];
      assert name[|name| - 1] in name;
      UndottedNameIsExtension(init);
      ToLowerSnoc(name);
    }
  }

  /** The extension test is case-insensitive: "face.JPG", "face.Jpeg", "face.PPM" and "face.pnm" are all images. */
  lemma ReaderForDottedName(stem: string, ext: string)
    requires '.' !in ext
    ensures ReaderFor(stem + "." + ext) ==
      if ToLower(ext) in {"jpg", "jpeg"} then Some(JpgReader)
      else if ToLower(ext) in {"ppm", "pnm"} then Some(PpmReader)
      else None
  {
    ExtensionOfDottedName(stem, ext);
  }
}
