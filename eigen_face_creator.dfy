/**
 * EigenFaceCreator: splits a sorted list of training image names into sets of
 * FACES_NUMBER names, checks every set (its size, its cache-name prefixes,
 * its image types and sizes) before a face bundle is built from it, and
 * matches a query image against all bundles by their reported distances.
 *
 * Java exceptions become Fail results; null file names and null bundle slots
 * become None. The numeric face bundle itself (EigenFaceComputation.submit) is
 * represented by the names and image files it is built from; what a bundle
 * reports for a query image (distance() and getID() after submitFace) is an input.
 */
module EigenFaceCreator {
  import opened Optional
  import opened FileNames

  /** Double.MAX_VALUE, (2^53 - 1) * 2^971, written out exactly. */
  const DoubleMax: real := 179769313486231570814527423731704356798070567525844996598917476803157260780028538760589558632766878171540458953514382464234321326889464182768467546703537516986049910576551282076245490090389328944075868508455133942304583236903222948165808559332123348274797826204144723168738177180919299881250404026184124858368.0

  /** The exceptions the modelled code can throw. */
  datatype Failure =
    | NullPointer                           // a null file name or a null bundle slot is dereferenced
    | StringIndexOutOfBounds(name: string)  // substring(0, -1): a file name without '.'
    | WrongSetSize(expected: int)           // IllegalArgumentException: "Can only accept a set of N files."
    | NotAnImage(name: string)              // IllegalArgumentException: "... is not an image file!"
    | SizeMismatch                          // IllegalArgumentException: images of different width or height
    | NegativeArraySize                     // new String[FACES_NUMBER] with FACES_NUMBER < 0
    | DivisionByZero                        // files.length / FACES_NUMBER with FACES_NUMBER == 0

  datatype Result<+T> = Ok(value: T) | Fail(failure: Failure)

  /** Width and height of an image, as its decoder reports them. */
  datatype Dims = Dims(width: int, height: int)

  /** An opened image file (xxxFile): the reader chosen and the file it reads. */
  datatype ImageFile = JPGFile(name: string) | PPMFile(name: string)

  /**
   * A face bundle, represented by what computeBundle feeds into
   * EigenFaceComputation.submit: the identifiers, the image file decoded for
   * every slot, and the common width and height.
   */
  datatype FaceBundle = FaceBundle(ids: seq<string>, images: seq<ImageFile>, width: int, height: int)

  /** What one bundle reports after submitFace(img): its distance() and getID(). */
  datatype Report = Report(distance: real, id: string)

  /** The running minimum of checkAgainst: small and id. */
  datatype Best = Best(distance: real, id: Option<string>)

  // ---------------------------------------------------------------------
  // Grouping of the sorted file names (readFaceBundles, lines 118-140)
  // ---------------------------------------------------------------------

  /**
   * Slot j of the reused buffer set[] once the group starting at name
   * position start has been filled: the name at start + j if there is one,
   * otherwise whatever the group before (start - fn) left there, and null if
   * no group ever wrote it.
   */
  function Slot(names: seq<string>, fn: int, start: int, j: int): (slot: Option<string>)
    requires fn >= 1 && 0 <= j
    ensures slot.Some? ==> slot.value in names
    decreases start
  {
    if start < 0 then None
    else if start + j < |names| then Some(names[start + j])
    else Slot(names, fn, start - fn, j)
  }

  /** The buffer set[] handed to submitSet for group i. */
  function Group(names: seq<string>, fn: int, i: int): (slots: seq<Option<string>>)
    requires fn >= 1
    ensures |slots| == fn
  {
    seq(fn, j requires 0 <= j < fn => Slot(names, fn, fn * i, j))
  }

  /** Number of bundles readFaceBundles allocates (line 128). */
  function BundleCount(n: nat, fn: int): (count: nat)
    requires fn >= 1
    ensures count >= 1 && (count - 1) * fn <= n < count * fn
  {
    n / fn + 1
  }

  /**
   * The slot closed form: slot j of group i holds the name of the latest
   * group i' <= i that reached it, i' = min(i, (n - 1 - j) / fn), or null
   * when the list is too short for any group to reach it.
   */
  lemma {:induction false} SlotIsLatestWrite(names: seq<string>, fn: int, i: int, j: int)
    requires fn >= 1 && 0 <= j && 0 <= i
    ensures j >= |names| ==> Slot(names, fn, fn * i, j) == None
    ensures j < |names| ==>
      var last := if i <= (|names| - 1 - j) / fn then i else (|names| - 1 - j) / fn;
      0 <= j + fn * last < |names| && Slot(names, fn, fn * i, j) == Some(names[j + fn * last])
  {
    var n := |names|;
    if j + fn * i < n {
      assert fn * i <= n - 1 - j;
      DivBounds(n - 1 - j, fn, i);
    } else if i > 0 {
      assert fn * i - fn == fn * (i - 1);
      SlotIsLatestWrite(names, fn, i - 1, j);
      if j < n {
        DivBounds(n - 1 - j, fn, i);
      }
    } else {
      assert Slot(names, fn, -fn, j) == None;
    }
  }

  /** x / fn is the largest q with fn * q <= x. */
  lemma DivBounds(x: int, fn: int, i: int)
    requires fn >= 1 && x >= 0 && i >= 0
    ensures fn * (x / fn) <= x
    ensures fn * i <= x <==> i <= x / fn
  {
    if fn * i <= x {
      if i > x / fn {
        assert fn * i >= fn * (x / fn + 1) by { MulMonotone(fn, x / fn + 1, i); }
      }
    } else {
      if i <= x / fn {
        MulMonotone(fn, i, x / fn);
      }
    }
  }

  lemma MulMonotone(fn: int, a: int, b: int)
    requires fn >= 1 && a <= b
    ensures fn * a <= fn * b
  {
  }

  /** Every name is handed to submitSet: name k sits in slot k % fn of group k / fn. */
  lemma EveryNameIsGrouped(names: seq<string>, fn: int, k: int)
    requires fn >= 1 && 0 <= k < |names|
    ensures k / fn < BundleCount(|names|, fn)
    ensures Group(names, fn, k / fn)[k % fn] == Some(names[k])
  {
    var q := k / fn;
    assert k % fn + fn * q == k;
    DivBounds(|names|, fn, q);
  }

  /**
   * When fn divides a non-zero number of names, the extra bundle readFaceBundles
   * allocates is built from exactly the names of the last full group again.
   */
  lemma {:induction false} ExtraGroupRepeatsLast(names: seq<string>, fn: int)
    requires fn >= 1 && |names| > 0 && |names| % fn == 0
    ensures BundleCount(|names|, fn) >= 2
    ensures Group(names, fn, |names| / fn) == Group(names, fn, |names| / fn - 1)
  {
    var n, last := |names|, |names| / fn;
    assert fn * last == n;
    assert fn * last - fn == fn * (last - 1);
    forall j | 0 <= j < fn
      ensures Slot(names, fn, fn * last, j) == Slot(names, fn, fn * (last - 1), j)
    {
      assert j + fn * last >= n;
    }
  }

  /**
   * With fewer names than fn (an empty directory included) the first set
   * keeps a null slot, so the first submitSet must fail.
   */
  lemma ShortListLeavesNull(names: seq<string>, fn: int)
    requires fn >= 1 && |names| < fn
    ensures Group(names, fn, 0)[|names|] == None
  {
    SlotIsLatestWrite(names, fn, 0, |names|);
  }

  // ---------------------------------------------------------------------
  // Cache name (submitSet, lines 173-181)
  // ---------------------------------------------------------------------

  /** The name submitSet builds for files[..] ("cache" and every prefix before a '.'), or the exception it throws. */
  function CacheName(files: seq<Option<string>>): (r: Result<string>)
    ensures r.Fail? ==> r.failure.NullPointer? || r.failure.StringIndexOutOfBounds?
    decreases |files|
  {
    if |files| == 0 then Ok("cache")
    else
      match CacheName(files[..|files| - 1])
      case Fail(f) => Fail(f)
      case Ok(name) =>
        match files[|files| - 1]
        case None => Fail(NullPointer)
        case Some(file) =>
          if '.' in file then Ok(name + CachePrefix(file)) else Fail(StringIndexOutOfBounds(file))
  }

  /** A usable entry: non-null and holding a '.'. */
  predicate Named(slot: Option<string>)
  {
    slot.Some? && '.' in slot.value
  }

  /** The exception for an entry that is not Named. */
  function BadNameFailure(slot: Option<string>): Failure
  {
    if slot.None? then NullPointer else StringIndexOutOfBounds(slot.value)
  }

  /**
   * The cache name exists exactly when every entry is a non-null name with a
   * '.'; it then starts with "cache" and has no '.' after it.
   */
  lemma {:induction false} CacheNameExists(files: seq<Option<string>>)
    ensures CacheName(files).Ok? <==> forall k :: 0 <= k < |files| ==> Named(files[k])
    ensures CacheName(files).Ok? ==>
      var name := CacheName(files).value;
      |name| >= 5 && name[..5] == "cache" && '.' !in name
  {
    if |files| > 0 {
      var init := files[..|files| - 1];
      CacheNameExists(init);
      assert forall m :: 0 <= m < |init| ==> init[m] == files[m];
      if CacheName(init).Ok? && Named(files[|files| - 1]) {
        var name := CacheName(init).value;
        var prefix := CachePrefix(files[|files| - 1].value);
        assert (name + prefix)[..5] == name[..5];
      }
    }
  }

  /** When entry k is the first bad one, its exception is the one submitSet throws. */
  lemma {:induction false} CacheNameFirstBad(files: seq<Option<string>>, k: int)
    requires 0 <= k < |files| && !Named(files[k])
    requires forall m :: 0 <= m < k ==> Named(files[m])
    ensures CacheName(files) == Fail(BadNameFailure(files[k]))
  {
    var init := files[..|files| - 1];
    if k < |files| - 1 {
      CacheNameFirstBad(init, k);
    } else {
      CacheNameExists(init);
    }
  }

  /** The position of the first entry that is null or has no '.', or |files| when there is none. */
  function FirstUnnamed(files: seq<Option<string>>): (k: nat)
    ensures k <= |files|
    ensures forall m :: 0 <= m < k ==> Named(files[m])
    ensures k < |files| ==> !Named(files[k])
  {
    if |files| == 0 || !Named(files[0]) then 0 else 1 + FirstUnnamed(files[1..])
  }

  /** The names held by a set; a null entry (never reached by computeBundle) reads as "". */
  function Names(files: seq<Option<string>>): (names: seq<string>)
    ensures |names| == |files| && forall k :: 0 <= k < |files| && files[k].Some? ==> files[k] == Some(names[k])
  {
    seq(|files|, k requires 0 <= k < |files| => if files[k].Some? then files[k].value else "")
  }

  // ---------------------------------------------------------------------
  // File types and image sizes (computeBundle, lines 264-292)
  // ---------------------------------------------------------------------

  /** The reader computeBundle opens for a name with a known extension. */
  function Open(name: string): (file: ImageFile)
    requires ReaderFor(name).Some?
    ensures file.name == name
    ensures ReaderFor(name) == Some(if file.JPGFile? then JpgReader else PpmReader)
  {
    if ReaderFor(name) == Some(JpgReader) then JPGFile(name) else PPMFile(name)
  }

  /**
   * The image file computeBundle stores in slot i. Since file is never reset,
   * a name with an unknown extension reuses the file opened for the slot before.
   */
  function Opened(names: seq<string>, i: int): (file: ImageFile)
    requires 0 <= i < |names| && ReaderFor(names[0]).Some?
    ensures file.name in names[..i + 1]
    ensures ReaderFor(file.name) == Some(if file.JPGFile? then JpgReader else PpmReader)
    decreases i
  {
    if ReaderFor(names[i]).Some? then Open(names[i]) else Opened(names, i - 1)
  }

  /** Slot i holds the file of the last name at or before i with a known extension. */
  lemma {:induction false} OpenedIsLastKnown(names: seq<string>, i: int, k: int)
    requires 0 <= k <= i < |names| && ReaderFor(names[0]).Some?
    requires ReaderFor(names[k]).Some?
    requires forall m :: k < m <= i ==> ReaderFor(names[m]).None?
    ensures Opened(names, i) == Open(names[k])
  {
    if i > k {
      OpenedIsLastKnown(names, i - 1, k);
    }
  }

  /**
   * The outcome of computeBundle on the first fn names: an unknown extension
   * is refused only for the first name (every later one reuses an earlier
   * file), and every slot's image must have the first image's width and height.
   */
  ghost function ComputeBundleResult(fn: int, names: seq<string>, dims: string -> Dims): (r: Result<FaceBundle>)
    requires 1 <= fn <= |names|
    ensures r.Fail? ==> r.failure == NotAnImage(names[0]) || r.failure == SizeMismatch
    ensures r.Ok? ==>
      && ReaderFor(names[0]).Some? && r.value.ids == names && |r.value.images| == fn
      && r.value.images[0].name == names[0] && dims(names[0]) == Dims(r.value.width, r.value.height)
  {
    if ReaderFor(names[0]).None? then Fail(NotAnImage(names[0]))
    else
      var images := OpenedUpTo(names, fn);
      var first := dims(names[0]);
      OpenedUpToAt(names, fn, 0);
      if AllSized(images, dims, first) then Ok(FaceBundle(names, images, first.width, first.height))
      else Fail(SizeMismatch)
  }

  /** The image files of slots 0 .. n - 1. */
  function OpenedUpTo(names: seq<string>, n: nat): (images: seq<ImageFile>)
    requires n <= |names| && (n > 0 ==> ReaderFor(names[0]).Some?)
    ensures |images| == n
  {
    if n == 0 then [] else OpenedUpTo(names, n - 1) + [Opened(names, n - 1)]
  }

  /** Entry k of OpenedUpTo is the file of slot k. */
  lemma {:induction false} OpenedUpToAt(names: seq<string>, n: nat, k: nat)
    requires k < n <= |names| && ReaderFor(names[0]).Some?
    ensures OpenedUpTo(names, n)[k] == Opened(names, k)
  {
    if k < n - 1 {
      OpenedUpToAt(names, n - 1, k);
    }
  }

  /** Every image has the given width and height. */
  ghost predicate AllSized(images: seq<ImageFile>, dims: string -> Dims, size: Dims)
  {
    forall i :: 0 <= i < |images| ==> dims(images[i].name) == size
  }

  /**
   * The sticky file as written: a set whose second name has an unknown
   * extension is not refused; its slot is read from the first file again.
   */
  lemma UnknownExtensionReusesPreviousFile(dims: string -> Dims)
    ensures ComputeBundleResult(2, ["a.jpg", "b.txt"], dims).Ok?
    ensures ComputeBundleResult(2, ["a.jpg", "b.txt"], dims).value.images == [JPGFile("a.jpg"), JPGFile("a.jpg")]
  {
    var names := ["a.jpg", "b.txt"];
    ReaderForDottedName("a", "jpg");
    ReaderForDottedName("b", "txt");
    assert names[0] == "a" + "." + "jpg" && names[1] == "b" + "." + "txt";
    assert ToLower("jpg") == "jpg" && ToLower("txt") == "txt";
    assert OpenedUpTo(names, 2) == [JPGFile("a.jpg"), JPGFile("a.jpg")];
  }

  /** The position of the first name with an unknown extension, or |names| when there is none. */
  function FirstUnknown(names: seq<string>): (k: nat)
    ensures k <= |names|
    ensures forall m :: 0 <= m < k ==> ReaderFor(names[m]).Some?
    ensures k < |names| ==> ReaderFor(names[k]).None?
  {
    if |names| == 0 || ReaderFor(names[0]).None? then 0 else 1 + FirstUnknown(names[1..])
  }

  /**
   * computeBundle as evidently intended, with file reset for every slot:
   * the first name with an unknown extension is refused, and every slot is
   * read from its own name.
   */
  ghost function ComputeBundleStrict(fn: int, names: seq<string>, dims: string -> Dims): (r: Result<FaceBundle>)
    requires 1 <= fn <= |names|
    ensures r.Fail? ==> (r.failure.NotAnImage? && r.failure.name in names[..fn]) || r.failure == SizeMismatch
    ensures r.Ok? ==> r.value.ids == names && |r.value.images| == fn
  {
    var bad := FirstUnknown(names[..fn]);
    if bad < fn then Fail(NotAnImage(names[bad]))
    else
      var images := seq(fn, i requires 0 <= i < fn => Open(names[i]));
      var first := dims(names[0]);
      if AllSized(images, dims, first) then Ok(FaceBundle(names, images, first.width, first.height))
      else Fail(SizeMismatch)
  }

  /**
   * The corrected computeBundle refuses a set exactly when some name has an
   * unknown extension or sizes differ; a bundle it builds reads every slot
   * from its own name, with the reader that name's extension selects.
   */
  lemma StrictBundleReadsEveryName(fn: int, names: seq<string>, dims: string -> Dims)
    requires 1 <= fn <= |names|
    ensures (exists k :: 0 <= k < fn && ReaderFor(names[k]).None?) ==>
      ComputeBundleStrict(fn, names, dims).Fail? && ComputeBundleStrict(fn, names, dims).failure.NotAnImage?
    ensures ComputeBundleStrict(fn, names, dims).Ok? ==>
      var b := ComputeBundleStrict(fn, names, dims).value;
      |b.images| == fn && forall i :: 0 <= i < fn ==>
        b.images[i].name == names[i] && ReaderFor(names[i]) == Some(if b.images[i].JPGFile? then JpgReader else PpmReader)
  {
    var bad := FirstUnknown(names[..fn]);
    if bad == fn {
      assert forall k :: 0 <= k < fn ==> ReaderFor(names[k]).Some? by {
        forall k | 0 <= k < fn ensures ReaderFor(names[k]).Some? {
          assert names[..fn][k] == names[k];
        }
      }
    }
  }

  /** When every name has a known extension, the sticky file never matters: both versions agree. */
  lemma StrictAgreesWhenAllKnown(fn: int, names: seq<string>, dims: string -> Dims)
    requires 1 <= fn <= |names|
    requires forall k :: 0 <= k < fn ==> ReaderFor(names[k]).Some?
    ensures ComputeBundleStrict(fn, names, dims) == ComputeBundleResult(fn, names, dims)
  {
    var images := seq(fn, i requires 0 <= i < fn => Open(names[i]));
    forall i | 0 <= i < fn
      ensures OpenedUpTo(names, fn)[i] == images[i]
    {
      OpenedUpToAt(names, fn, i);
    }
    assert OpenedUpTo(names, fn) == images;
  }

  /**
   * The outcome of submitSet: the size check; then the first null name or
   * name without '.' throws while the cache name is built; then computeBundle.
   */
  ghost function SubmitSetResult(fn: int, files: seq<Option<string>>, dims: string -> Dims): (r: Result<FaceBundle>)
    requires fn >= 1
    ensures r == Fail(WrongSetSize(fn)) <==> |files| != fn
  {
    if |files| != fn then Fail(WrongSetSize(fn))
    else
      var bad := FirstUnnamed(files);
      if bad < |files| then Fail(BadNameFailure(files[bad]))
      else ComputeBundleResult(fn, Names(files), dims)
  }

  /** A built bundle has one image per slot, each of the bundle's width and height. */
  lemma BuiltBundleIsUniform(fn: int, files: seq<Option<string>>, dims: string -> Dims)
    requires fn >= 1 && SubmitSetResult(fn, files, dims).Ok?
    ensures forall k :: 0 <= k < |files| ==> Named(files[k])
    ensures var b := SubmitSetResult(fn, files, dims).value;
      |b.images| == fn && b.ids == Names(files) &&
      forall i :: 0 <= i < fn ==> dims(b.images[i].name) == Dims(b.width, b.height)
  {
  }

  /** The outcome of submitSet for group i of readFaceBundles. */
  ghost function GroupResult(names: seq<string>, fn: int, dims: string -> Dims, i: int): Result<FaceBundle>
    requires fn >= 1
  {
    SubmitSetResult(fn, Group(names, fn, i), dims)
  }

  /** The outcomes of submitSet for groups 0 .. count - 1, as if every group were attempted. */
  ghost function GroupResults(names: seq<string>, fn: int, dims: string -> Dims, count: nat): (results: seq<Result<FaceBundle>>)
    requires fn >= 1
    ensures |results| == count
  {
    if count == 0 then [] else GroupResults(names, fn, dims, count - 1) + [GroupResult(names, fn, dims, count - 1)]
  }

  /** The outcomes of the first m groups do not depend on how many groups there are. */
  lemma {:induction false} GroupResultsPrefix(names: seq<string>, fn: int, dims: string -> Dims, m: nat, n: nat)
    requires fn >= 1 && m <= n
    ensures GroupResults(names, fn, dims, n)[..m] == GroupResults(names, fn, dims, m)
  {
    var all := GroupResults(names, fn, dims, n);
    if m < n {
      GroupResultsPrefix(names, fn, dims, m, n - 1);
      assert all[..m] == all[..n - 1][..m];
    } else {
      assert all[..n] == all;
    }
  }

  /** Entry k of the outcomes is the outcome of group k. */
  lemma GroupResultsAt(names: seq<string>, fn: int, dims: string -> Dims, n: nat, k: nat)
    requires fn >= 1 && k < n
    ensures GroupResults(names, fn, dims, n)[k] == GroupResult(names, fn, dims, k)
  {
    GroupResultsPrefix(names, fn, dims, k + 1, n);
    assert GroupResults(names, fn, dims, n)[k] == GroupResults(names, fn, dims, n)[..k + 1][k];
  }

  /** The position of the first failure in results, or |results| when every one succeeds. */
  function FirstFailure<T>(results: seq<Result<T>>): (f: nat)
    ensures f <= |results|
    ensures forall k :: 0 <= k < f ==> results[k].Ok?
    ensures f < |results| ==> results[f].Fail?
  {
    if |results| == 0 || results[0].Fail? then 0 else 1 + FirstFailure(results[1..])
  }

  /**
   * The bundle slots and the outcome readFaceBundles leaves for the outcomes
   * of all groups: every group before the first failure has its bundle, that
   * slot and every later one stay null, and the first failure is thrown.
   */
  ghost predicate StoppedAtFirstFailure(slots: seq<Option<FaceBundle>>, r: Result<()>, results: seq<Result<FaceBundle>>)
  {
    var f := FirstFailure(results);
    && |slots| == |results|
    && (forall k :: 0 <= k < |results| ==> slots[k] == if k < f then Some(results[k].value) else None)
    && r == if f == |results| then Ok(()) else Fail(results[f].failure)
  }

  /** A failure preceded only by successes is the first failure. */
  lemma FirstFailureAt<T>(results: seq<Result<T>>, i: nat)
    requires i < |results| && results[i].Fail?
    requires forall k :: 0 <= k < i ==> results[k].Ok?
    ensures FirstFailure(results) == i
  {
  }

  /**
   * When groups 0 .. i - 1 succeed and group i fails, group i is the first
   * failure among all count groups, and the outcomes before it are those of
   * the groups already loaded.
   */
  lemma FailureStopsLoading(names: seq<string>, fn: int, dims: string -> Dims, count: nat, i: nat)
    requires fn >= 1 && i < count
    requires forall k :: 0 <= k < i ==> GroupResults(names, fn, dims, i)[k].Ok?
    requires GroupResult(names, fn, dims, i).Fail?
    ensures var all := GroupResults(names, fn, dims, count);
      && FirstFailure(all) == i && all[i] == GroupResult(names, fn, dims, i)
      && forall k :: 0 <= k < i ==> all[k] == GroupResults(names, fn, dims, i)[k]
  {
    var all := GroupResults(names, fn, dims, count);
    var done := GroupResults(names, fn, dims, i);
    GroupResultsPrefix(names, fn, dims, i + 1, count);
    assert all[..i + 1] == done + [GroupResult(names, fn, dims, i)];
    assert forall k :: 0 <= k <= i ==> all[k] == all[..i + 1][k];
    FirstFailureAt(all, i);
  }

  /**
   * Slots holding the bundles of groups 0 .. i - 1 and null from i on, with
   * group i failing, are what readFaceBundles leaves, and group i's
   * exception is the one it throws.
   */
  lemma LoadingStopsAtFailure(names: seq<string>, fn: int, dims: string -> Dims, slots: seq<Option<FaceBundle>>, i: nat)
    requires fn >= 1 && i < |slots|
    requires forall k :: 0 <= k < i ==> GroupResults(names, fn, dims, i)[k].Ok?
    requires forall k :: 0 <= k < i ==> slots[k] == Some(GroupResults(names, fn, dims, i)[k].value)
    requires forall k :: i <= k < |slots| ==> slots[k] == None
    requires GroupResult(names, fn, dims, i).Fail?
    ensures StoppedAtFirstFailure(slots, Fail(GroupResult(names, fn, dims, i).failure), GroupResults(names, fn, dims, |slots|))
  {
    FailureStopsLoading(names, fn, dims, |slots|, i);
  }

  /** When every group succeeds, slots holding all their bundles are what readFaceBundles leaves, without an exception. */
  lemma EveryGroupLoaded(names: seq<string>, fn: int, dims: string -> Dims, slots: seq<Option<FaceBundle>>)
    requires fn >= 1
    requires forall k :: 0 <= k < |slots| ==> GroupResults(names, fn, dims, |slots|)[k].Ok?
    requires forall k :: 0 <= k < |slots| ==> slots[k] == Some(GroupResults(names, fn, dims, |slots|)[k].value)
    ensures StoppedAtFirstFailure(slots, Ok(()), GroupResults(names, fn, dims, |slots|))
  {
  }

  /** readFaceBundles never trips the size check of submitSet: every set has fn slots. */
  lemma GroupsHaveRightSize(names: seq<string>, fn: int, dims: string -> Dims, i: int)
    requires fn >= 1
    ensures GroupResult(names, fn, dims, i) != Fail(WrongSetSize(fn))
  {
  }

  /** With fewer names than fn the very first bundle fails, so readFaceBundles fails. */
  lemma ShortListFails(names: seq<string>, fn: int, dims: string -> Dims)
    requires fn >= 1 && |names| < fn
    ensures FirstFailure(GroupResults(names, fn, dims, BundleCount(|names|, fn))) == 0
  {
    var slots := Group(names, fn, 0);
    ShortListLeavesNull(names, fn);
    assert !Named(slots[|names|]);
    GroupResultsAt(names, fn, dims, BundleCount(|names|, fn), 0);
  }

  // ---------------------------------------------------------------------
  // Best match (checkAgainst, lines 69-81)
  // ---------------------------------------------------------------------

  /** The min-scan of checkAgainst over the first |reports| bundles, starting from Double.MAX_VALUE and no id. */
  function Scan(reports: seq<Report>): (best: Best)
    ensures best.distance <= DoubleMax
    ensures best.id.None? <==> best.distance == DoubleMax
    decreases |reports|
  {
    if |reports| == 0 then Best(DoubleMax, None)
    else
      var before := Scan(reports[..|reports| - 1]);
      var last := reports[|reports| - 1];
      if before.distance > last.distance then Best(last.distance, Some(last.id)) else before
  }

  /**
   * The result checkAgainst promises: the least of Double.MAX_VALUE and all
   * reported distances, with the id of the lowest-numbered bundle reporting a
   * distance strictly below Double.MAX_VALUE and equal to that least value,
   * or no id when no bundle reports less than Double.MAX_VALUE.
   */
  ghost predicate IsFirstMinimum(reports: seq<Report>, best: Best)
  {
    && best.distance <= DoubleMax
    && (forall k :: 0 <= k < |reports| ==> best.distance <= reports[k].distance)
    && (best.id.None? ==> best.distance == DoubleMax)
    && (best.id.Some? ==>
          exists k :: 0 <= k < |reports| && reports[k].distance == best.distance < DoubleMax
                   && reports[k].id == best.id.value
                   && forall m :: 0 <= m < k ==> reports[m].distance > best.distance)
  }

  /** The scan finds the first minimum. */
  lemma {:induction false} ScanIsFirstMinimum(reports: seq<Report>)
    ensures IsFirstMinimum(reports, Scan(reports))
  {
    var n := |reports|;
    if n > 0 {
      var init := reports[..n - 1];
      ScanIsFirstMinimum(init);
      var before, last := Scan(init), reports[n - 1];
      assert forall m :: 0 <= m < n - 1 ==> reports[m] == init[m];
      if before.distance > last.distance {
        assert Scan(reports) == Best(last.distance, Some(last.id));
        assert forall m :: 0 <= m < n - 1 ==> reports[m].distance > last.distance;
      } else {
        assert Scan(reports) == before;
        if before.id.Some? {
          var k :| 0 <= k < |init| && init[k].distance == before.distance < DoubleMax
            && init[k].id == before.id.value
            && forall m :: 0 <= m < k ==> init[m].distance > before.distance;
          assert reports[k] == init[k];
        }
      }
    }
  }

  /** Two first minima have the same distance: each is at most the other. */
  lemma FirstMinimumDistance(reports: seq<Report>, b1: Best, b2: Best)
    requires IsFirstMinimum(reports, b1) && IsFirstMinimum(reports, b2)
    ensures b2.distance <= b1.distance
  {
    if b1.id.Some? {
      var k1 :| 0 <= k1 < |reports| && reports[k1].distance == b1.distance < DoubleMax
        && reports[k1].id == b1.id.value && forall m :: 0 <= m < k1 ==> reports[m].distance > b1.distance;
    }
  }

  /** The first minimum is unique, so IsFirstMinimum pins down checkAgainst's result. */
  lemma FirstMinimumIsUnique(reports: seq<Report>, b1: Best, b2: Best)
    requires IsFirstMinimum(reports, b1) && IsFirstMinimum(reports, b2)
    ensures b1 == b2
  {
    FirstMinimumDistance(reports, b1, b2);
    FirstMinimumDistance(reports, b2, b1);
    if b1.id.Some? && b2.id.Some? {
      var k1 :| 0 <= k1 < |reports| && reports[k1].distance == b1.distance < DoubleMax
        && reports[k1].id == b1.id.value && forall m :: 0 <= m < k1 ==> reports[m].distance > b1.distance;
      var k2 :| 0 <= k2 < |reports| && reports[k2].distance == b2.distance < DoubleMax
        && reports[k2].id == b2.id.value && forall m :: 0 <= m < k2 ==> reports[m].distance > b2.distance;
      assert k1 == k2;
    }
  }

  // ---------------------------------------------------------------------
  // The creator object
  // ---------------------------------------------------------------------

  class EigenFaceCreator {
    /** FACES_NUMBER: how many images make one face bundle. */
    var facesNumber: int
    /** b: null until readFaceBundles runs; a slot stays null if building its bundle threw. */
    var bundles: Option<seq<Option<FaceBundle>>>
    /** DISTANCE: the minimum distance seen by the last successful checkAgainst. */
    var distance: real

    constructor ()
      ensures facesNumber == 2 && bundles == None && distance == DoubleMax
    {
      facesNumber := 2;
      bundles := None;
      distance := DoubleMax;
    }

    /** setFACES_NUMBER (lines 48-52). */
    method SetFacesNumber(n: int)
      modifies this`facesNumber
      ensures facesNumber == n
    {
      facesNumber := n;
    }

    /**
     * checkAgainst (lines 64-88): reports[i] is what bundle i says about the
     * query image, and reports is None when the image could not be read (img
     * is null). No bundles or no image: no id and DISTANCE kept. A null slot:
     * the NullPointerException, DISTANCE kept. Otherwise DISTANCE and the id
     * are the first minimum over all bundles.
     */
    method CheckAgainst(reports: Option<seq<Report>>) returns (r: Result<Option<string>>)
      requires bundles.Some? && reports.Some? ==> |reports.value| == |bundles.value|
      modifies this`distance
      ensures bundles.None? || reports.None? ==> r == Ok(None) && distance == old(distance)
      ensures bundles.Some? && reports.Some? && (exists k :: 0 <= k < |bundles.value| && bundles.value[k].None?) ==>
        r == Fail(NullPointer) && distance == old(distance)
      ensures bundles.Some? && reports.Some? && (forall k :: 0 <= k < |bundles.value| ==> bundles.value[k].Some?) ==>
        r.Ok? && IsFirstMinimum(reports.value, Best(distance, r.value))
    {
      var id: Option<string> := None;
      if bundles.Some? {
        var b := bundles.value;
        var small := DoubleMax;
        if reports.Some? {
          var img := reports.value;
          for i := 0 to |b|
            invariant forall k :: 0 <= k < i ==> b[k].Some?
            invariant Best(small, id) == Scan(img[..i])
          {
            if b[i].None? {
              return Fail(NullPointer);
            }
            assert img[..i + 1][..i] == img[..i];
            if small > img[i].distance {
              small := img[i].distance;
              id := Some(img[i].id);
            }
          }
          distance := small;
          assert img[..|b|] == img;
          ScanIsFirstMinimum(img);
        }
      }
      r := Ok(id);
    }

    /**
     * computeBundle (lines 261-309) on names[..facesNumber]: picks a reader by
     * extension with the never-reset file variable, and checks that every
     * image has the width and height of image 0.
     */
    method ComputeBundle(names: seq<string>, dims: string -> Dims) returns (r: Result<FaceBundle>)
      requires 1 <= facesNumber <= |names|
      ensures r == ComputeBundleResult(facesNumber, names, dims)
    {
      var fn := facesNumber;
      var files: seq<ImageFile> := [];
      var file: Option<ImageFile> := None;
      var width, height := 0, 0;
      var i := 0;
      while i < fn
        invariant 0 <= i <= fn
        invariant i == 0 ==> file == None
        invariant i > 0 ==> ReaderFor(names[0]).Some? && file == Some(Opened(names, i - 1))
        invariant files == OpenedUpTo(names, i)
        invariant i > 0 ==> Dims(width, height) == dims(names[0])
        invariant AllSized(files, dims, Dims(width, height))
      {
        var reader := ReaderFor(names[i]);
        if reader == Some(JpgReader) {
          file := Some(JPGFile(names[i]));
        } else if reader == Some(PpmReader) {
          file := Some(PPMFile(names[i]));
        }
        if file.None? {
          return Fail(NotAnImage(names[i]));
        }
        assert file.value == Opened(names, i);
        files := files + [file.value];
        if i == 0 {
          width, height := dims(files[0].name).width, dims(files[0].name).height;
        }
        if width != dims(files[i].name).width || height != dims(files[i].name).height {
          OpenedUpToAt(names, fn, i);
          return Fail(SizeMismatch);
        }
        i := i + 1;
      }
      r := Ok(FaceBundle(names, files, width, height));
    }

    /**
     * The cache-name loop of submitSet (lines 173-181): appends to "cache"
     * the part of every name before its first '.'. A null name throws the
     * NullPointerException, a name without '.' the StringIndexOutOfBoundsException.
     */
    static method BuildCacheName(files: seq<Option<string>>) returns (r: Result<string>)
      ensures r == CacheName(files)
    {
      var name := "cache";
      for i := 0 to |files|
        invariant CacheName(files[..i]) == Ok(name)
      {
        assert files[..i + 1][..i] == files[..i];
        if !Named(files[i]) {
          CacheNameExists(files[..i]);
          assert forall m :: 0 <= m < i ==> files[..i][m] == files[m];
          CacheNameFirstBad(files, i);
        }
        if files[i].None? {
          return Fail(NullPointer);
        }
        var f := files[i].value;
        var dot := IndexOf(f, '.');
        IndexOfFinds(f, '.');
        if dot < 0 {
          return Fail(StringIndexOutOfBounds(f));
        }
        name := name + f[..dot];
      }
      assert files[..|files|] == files;
      r := Ok(name);
    }

    /**
     * submitSet (lines 163-195): the size check, the cache name (only its
     * exceptions are observable: the cache is never read), then computeBundle.
     */
    method SubmitSet(files: seq<Option<string>>, dims: string -> Dims) returns (r: Result<FaceBundle>)
      requires facesNumber >= 1
      ensures r == SubmitSetResult(facesNumber, files, dims)
    {
      if |files| != facesNumber {
        return Fail(WrongSetSize(facesNumber));
      }
      var name := BuildCacheName(files);
      CacheNameExists(files);
      if name.Fail? {
        CacheNameFirstBad(files, FirstUnnamed(files));
        return Fail(name.failure);
      }
      var names := seq(|files|, k requires 0 <= k < |files| => files[k].value);
      assert names == Names(files);
      r := ComputeBundle(names, dims);
    }

    /**
     * The inner loop of readFaceBundles (lines 132-137): copies the names of
     * group i into the reused buffer, leaving slots past the end of the list
     * as the previous group left them.
     */
    static method FillGroup(buffer: array<Option<string>>, filenames: seq<string>, i: nat)
      requires buffer.Length >= 1 && buffer[..] == Group(filenames, buffer.Length, i - 1)
      modifies buffer
      ensures buffer[..] == Group(filenames, buffer.Length, i)
    {
      var fn := buffer.Length;
      var start := fn * i;
      MulMonotone(fn, 0, i);
      assert start - fn == fn * (i - 1);
      for j := 0 to fn
        invariant forall m :: 0 <= m < j ==> buffer[m] == Slot(filenames, fn, start, m)
        invariant forall m :: j <= m < fn ==> buffer[m] == Slot(filenames, fn, start - fn, m)
      {
        if |filenames| > j + start {
          buffer[j] := Some(filenames[j + start]);
        }
      }
    }

    /** One pass of the outer loop of readFaceBundles (lines 131-139): fill the buffer with group i and submit it. */
    method LoadGroup(buffer: array<Option<string>>, filenames: seq<string>, dims: string -> Dims, i: nat)
      returns (bundle: Result<FaceBundle>)
      requires buffer.Length == facesNumber >= 1 && buffer[..] == Group(filenames, facesNumber, i - 1)
      modifies buffer
      ensures buffer[..] == Group(filenames, facesNumber, i)
      ensures bundle == GroupResult(filenames, facesNumber, dims, i)
    {
      FillGroup(buffer, filenames, i);
      bundle := SubmitSet(buffer[..], dims);
    }

    /**
     * readFaceBundles (lines 110-141) on the already sorted file names: one
     * bundle per group of facesNumber names plus one, built in order from the
     * reused set buffer. The first failing group stops the loop and leaves
     * its slot and all later ones null.
     */
    method ReadFaceBundles(filenames: seq<string>, dims: string -> Dims) returns (r: Result<()>)
      modifies this`bundles
      ensures facesNumber < 0 ==> r == Fail(NegativeArraySize) && bundles == old(bundles)
      ensures facesNumber == 0 ==> r == Fail(DivisionByZero) && bundles == old(bundles)
      ensures facesNumber >= 1 ==>
        bundles.Some? &&
        StoppedAtFirstFailure(bundles.value, r, GroupResults(filenames, facesNumber, dims, BundleCount(|filenames|, facesNumber)))
    {
      var fn := facesNumber;
      if fn < 0 {
        return Fail(NegativeArraySize);
      }
      var buffer := new Option<string>[fn](_ => None);
      if fn == 0 {
        return Fail(DivisionByZero);
      }
      var count := |filenames| / fn + 1;
      bundles := Some(seq(count, _ => None));
      assert buffer[..] == Group(filenames, fn, -1);
      var slots;
      slots, r := LoadBundles(buffer, filenames, dims, bundles.value);
      bundles := Some(slots);
    }

    /**
     * The outer loop of readFaceBundles (lines 131-140) over the slots of b,
     * all null to begin with: builds the bundles in order from the reused
     * buffer and stops at the first failure.
     */
    method LoadBundles(buffer: array<Option<string>>, filenames: seq<string>, dims: string -> Dims, empty: seq<Option<FaceBundle>>)
      returns (slots: seq<Option<FaceBundle>>, r: Result<()>)
      requires buffer.Length == facesNumber >= 1 && buffer[..] == Group(filenames, facesNumber, -1)
      requires empty == seq(BundleCount(|filenames|, facesNumber), _ => None)
      modifies buffer
      ensures StoppedAtFirstFailure(slots, r, GroupResults(filenames, facesNumber, dims, |empty|))
    {
      var fn := facesNumber;
      var count := |empty|;
      slots := empty;
      ghost var done: seq<Result<FaceBundle>> := [];
      for i := 0 to count
        invariant |slots| == count
        invariant buffer[..] == Group(filenames, fn, i - 1)
        invariant done == GroupResults(filenames, fn, dims, i)
        invariant forall k :: 0 <= k < i ==> done[k].Ok?
        invariant forall k :: 0 <= k < i ==> slots[k] == Some(done[k].value)
        invariant forall k :: i <= k < count ==> slots[k] == None
      {
        var bundle := LoadGroup(buffer, filenames, dims, i);
        if bundle.Fail? {
          LoadingStopsAtFailure(filenames, fn, dims, slots, i);
          return slots, Fail(bundle.failure);
        }
        slots := slots[i := Some(bundle.value)];
        done := done + [bundle];
      }
      EveryGroupLoaded(filenames, fn, dims, slots);
      r := Ok(());
    }
  }
}
