# Eigenface recogniser: bundle building, eigenvector ordering and matching

This project models the core of an Android eigenface recogniser written in Java.

- `EigenFaceCreator` reads a directory of training images and splits the sorted file names into sets of `FACES_NUMBER` images. It checks every set before a face bundle is built from it:
  - the size of the set;
  - the cache name made from every file name;
  - that the first file has a JPEG or PPM extension (a later file with another extension is read with the file opened before it; see Findings);
  - that every image has the same width and height.

  It then matches a query image against all bundles and keeps the bundle with the smallest distance.
- `EigenFaceComputation` builds a bundle. The modelled part is the step that sorts the eigenvalues with an index-carrying quicksort, reverses the index and reorders the eigenvector columns by it. The model also covers the vector helpers `max`, `sum` and `diag`.

The files are:

- `quick_sort.dfy` (module `QuickSort`): `doubleQuickSort` and `swap` over arrays. It has the code as written and a corrected swap whose index follows the values.
- `eigen_face_computation.dfy` (module `EigenFaceComputation`): `max`, `sum`, `diag` and the eigenvector ordering of `submit`, all as array methods.
- `file_names.dfy` (modules `Optional` and `FileNames`): the string operations the creator applies to file names. These are `indexOf`, `lastIndexOf`, `toLowerCase`, the extension test and the cache-name prefix.
- `eigen_face_creator.dfy` (module `EigenFaceCreator`): the class `EigenFaceCreator`, with the fields `FACES_NUMBER`, `b` and `DISTANCE`, and its methods. Each method is proved against a specification function of the inputs and the old state (`GroupResults`, `SubmitSetResult`, `ComputeBundleResult`, `CacheName`) or a predicate on its result (`IsFirstMinimum`, `StoppedAtFirstFailure`). Lemmas state what those functions mean.

Modelling conventions:

- A Java `double` is a `real`.
- `Double.MAX_VALUE` is written out exactly.
- A null reference is `Option.None`.
- An exception is a `Fail` result naming the exception.
- A decoded image is represented by its file name and its reader. Its width and height come from a function `dims` that the caller supplies.
- What each face bundle reports for the query image (its `distance()` and `getID()`) is an input.

## Model

| member | source | states |
|---|---|---|
| QuickSort.Swap | src/com/licence/eigenface/EigenFaceComputation.java:408-416 | Exchanges a[i] and a[j] and changes nothing else in a. index[i] becomes i and index[j] becomes j, so the index entries are not exchanged. |
| QuickSort.Exchange | src/com/licence/eigenface/EigenFaceComputation.java:409-412 | Exchanges arr[i] and arr[j], leaves every other element unchanged and keeps the multiset. |
| QuickSort.ScanUp | src/com/licence/eigenface/EigenFaceComputation.java:372-374 | Stops at the first position from lo that holds a value of at least mid; every value passed is below mid. A sentinel keeps the scan at or before hi0. |
| QuickSort.ScanDown | src/com/licence/eigenface/EigenFaceComputation.java:380-382 | Stops at the first position going left from hi that holds a value of at most mid; every value passed is above mid. A sentinel keeps the scan at or after lo0. |
| QuickSort.Partition | src/com/licence/eigenface/EigenFaceComputation.java:365-390 | The scan stops with hi < lo. Everything left of lo is at most the pivot a[(lo0+hi0)/2] and everything right of hi is at least it. Both recursive ranges are strictly smaller. The values are permuted within lo0..hi0 only. |
| QuickSort.BoundsKept | src/com/licence/eigenface/EigenFaceComputation.java:395-404 | Rearranging a range in place keeps every bound that held for all its elements. The recursive calls therefore keep the partition's split. |
| QuickSort.JoinSorted | src/com/licence/eigenface/EigenFaceComputation.java:395-404 | Two sorted runs on either side of the pivot make one sorted range. |
| QuickSort.DoubleQuickSort | src/com/licence/eigenface/EigenFaceComputation.java:354-406 | a[lo0..hi0] ends ascending and is a permutation of what it held, and nothing outside the range changes. Every index entry keeps its value or is overwritten with its own position. An identity index stays the identity. |
| QuickSort.SwapTracked | src/com/licence/eigenface/EigenFaceComputation.java:408-416 | The corrected swap exchanges both a[i] and a[j] and index[i] and index[j]. An index that named the origin of every value still does. |
| QuickSort.SwapKeepsTracking | src/com/licence/eigenface/EigenFaceComputation.java:408-416 | Exchanging two values together with their index entries keeps every entry naming its value's origin. |
| QuickSort.PartitionTracked | src/com/licence/eigenface/EigenFaceComputation.java:365-390 | Partition with the corrected swap gives the same split. It keeps every index entry attached to its value and keeps the index a permutation. |
| QuickSort.DoubleQuickSortTracked | src/com/licence/eigenface/EigenFaceComputation.java:354-406 | The corrected sort: ascending, a permutation, unchanged outside the range. index[k] still names the original position of the value now at k. |
| QuickSort.IdentityIndexMisnames | src/com/licence/eigenface/EigenFaceComputation.java:414-415 | Sorting [2.0, 1.0] gives [1.0, 2.0]. The identity index that the written swap leaves stays [0, 1] and says that slot 0 came from position 0, which is false. |
| QuickSort.SortTwoAsWritten | src/com/licence/eigenface/EigenFaceComputation.java:354-416 | doubleQuickSort as written, run on [2.0, 1.0] with the index [0, 1], gives [1.0, 2.0] and leaves the index [0, 1], which does not name where each value came from. |
| EigenFaceComputation.Max | src/com/licence/eigenface/EigenFaceComputation.java:332-339 | The result is an element of a, and no element of a exceeds it. |
| EigenFaceComputation.Sum | src/com/licence/eigenface/EigenFaceComputation.java:314-322 | As written, the result is a[0] plus the sum of all elements, so it exceeds the true sum by a[0]. |
| EigenFaceComputation.SumCorrected | src/com/licence/eigenface/EigenFaceComputation.java:307-322 | The result is the sum of the elements, as the method's documentation says. |
| EigenFaceComputation.Diag | src/com/licence/eigenface/EigenFaceComputation.java:279-285 | d has one entry per row, and d[i] == m[i][i]. |
| EigenFaceComputation.ReverseIndex | src/com/licence/eigenface/EigenFaceComputation.java:155-157 | Slot k receives index[n-1-k]. The result holds the same values (same multiset). The identity index becomes n-1, ..., 0. |
| EigenFaceComputation.ReversalKeepsMultiset | src/com/licence/eigenface/EigenFaceComputation.java:155-157 | Reading a sequence backwards keeps its multiset. |
| EigenFaceComputation.ReversedTracking | src/com/licence/eigenface/EigenFaceComputation.java:155-163 | Reading a tracking index backwards pairs column c with the origin of the value c places from the end. |
| EigenFaceComputation.ReorderColumns | src/com/licence/eigenface/EigenFaceComputation.java:168-172 | Column c of the n-by-n result is column index[c] of eigVector. |
| EigenFaceComputation.SortEigenvalues | src/com/licence/eigenface/EigenFaceComputation.java:142-152 | As written: the eigenvalues end ascending and permuted, and the index comes back as the identity whatever the eigenvalues were. |
| EigenFaceComputation.OrderEigenvectors | src/com/licence/eigenface/EigenFaceComputation.java:142-173 | As written: the eigenvalues end ascending, and column c of the result is column n-1-c of eigVector. The columns are only reversed, not ordered by eigenvalue. |
| EigenFaceComputation.SortEigenvaluesTracked | src/com/licence/eigenface/EigenFaceComputation.java:142-152 | Corrected: the eigenvalues end ascending. The index is a permutation of 0..n-1 with eigValue[k] == old eigValue[index[k]]. |
| EigenFaceComputation.OrderEigenvectorsTracked | src/com/licence/eigenface/EigenFaceComputation.java:142-173 | Corrected: column c is eigenvector order[c], where order is a permutation of 0..n-1. Its eigenvalue is the c-th largest. |
| FileNames.IndexOf | src/com/licence/eigenface/EigenFaceCreator.java:177 | String.indexOf gives -1 or a position inside the string. |
| FileNames.IndexOfFinds | src/com/licence/eigenface/EigenFaceCreator.java:177 | indexOf gives -1 exactly when c does not occur. Otherwise it gives a position holding c with no earlier c. |
| FileNames.LastIndexOf | src/com/licence/eigenface/EigenFaceCreator.java:273 | String.lastIndexOf gives -1 or a position inside the string. |
| FileNames.LastIndexOfFinds | src/com/licence/eigenface/EigenFaceCreator.java:273 | lastIndexOf gives -1 exactly when c does not occur. Otherwise it gives a position holding c with no later c. |
| FileNames.ToLower | src/com/licence/eigenface/EigenFaceCreator.java:272 | Lower-casing keeps the length. |
| FileNames.Extension | src/com/licence/eigenface/EigenFaceCreator.java:272-273 | The extension is no longer than the name. |
| FileNames.CachePrefix | src/com/licence/eigenface/EigenFaceCreator.java:177 | The prefix is the part of the name before its first '.'. It holds no '.' and is followed by '.' in the name. |
| FileNames.LastDotOfLower | src/com/licence/eigenface/EigenFaceCreator.java:272-273 | Lower-casing does not move the last '.'. |
| FileNames.ExtensionAfterLastDot | src/com/licence/eigenface/EigenFaceCreator.java:272-273 | The extension is the lower-cased name after its last '.'. |
| FileNames.ExtensionInJavaOrder | src/com/licence/eigenface/EigenFaceCreator.java:272-273 | The extension equals lower-casing first, then cutting after the last '.' of the lower-cased text, which is the order computeBundle uses. |
| FileNames.ExtensionOfDottedName | src/com/licence/eigenface/EigenFaceCreator.java:272-273 | The extension of stem.ext, where ext holds no '.', is ext lower-cased, whatever the stem holds. |
| FileNames.UndottedNameIsExtension | src/com/licence/eigenface/EigenFaceCreator.java:272-273 | A name without '.' is its own extension, lower-cased. |
| FileNames.ReaderForDottedName | src/com/licence/eigenface/EigenFaceCreator.java:274-277 | stem.ext selects the JPG reader for jpg or jpeg and the PPM reader for ppm or pnm, in any letter case. Any other extension selects no reader. |
| FileNames.ReaderForInJavaOrder | src/com/licence/eigenface/EigenFaceCreator.java:272-277 | The reader chosen for a name is the one computeBundle picks: lower-case the name, take the text after its last '.', then JPG for "jpg" or "jpeg", PPM for "ppm" or "pnm", and none otherwise. |
| EigenFaceCreator.Group | src/com/licence/eigenface/EigenFaceCreator.java:131-137 | The set handed to submitSet always has FACES_NUMBER slots. |
| EigenFaceCreator.BundleCount | src/com/licence/eigenface/EigenFaceCreator.java:128 | files.length / FACES_NUMBER + 1 bundles always cover every name, and at most one group starts past the end. |
| EigenFaceCreator.SlotIsLatestWrite | src/com/licence/eigenface/EigenFaceCreator.java:118-137 | Slot j of set i holds the name at j + fn*min(i, (n-1-j)/fn), which is the last group that reached it. It stays null when no group did. |
| EigenFaceCreator.Slot | src/com/licence/eigenface/EigenFaceCreator.java:131-137 | A slot of the reused set buffer is null or holds one of the sorted file names. |
| EigenFaceCreator.DivBounds | src/com/licence/eigenface/EigenFaceCreator.java:133 | fn*i <= x exactly when i <= x / fn, the bound that the slot test checks. |
| EigenFaceCreator.EveryNameIsGrouped | src/com/licence/eigenface/EigenFaceCreator.java:128-137 | Name k is in slot k % fn of a set that is submitted, set k / fn. |
| EigenFaceCreator.ExtraGroupRepeatsLast | src/com/licence/eigenface/EigenFaceCreator.java:128-137 | When fn divides the number of names, the extra last bundle is built from the previous set's names again. |
| EigenFaceCreator.ShortListLeavesNull | src/com/licence/eigenface/EigenFaceCreator.java:118-137 | With fewer names than fn, the first set keeps a null slot. |
| EigenFaceCreator.CacheNameExists | src/com/licence/eigenface/EigenFaceCreator.java:173-181 | The cache name is built exactly when every entry is non-null and holds a '.'. It then starts with "cache" and holds no '.'. |
| EigenFaceCreator.CacheName | src/com/licence/eigenface/EigenFaceCreator.java:173-181 | Building the name throws only NullPointerException (a null entry) or StringIndexOutOfBoundsException (an entry without a '.'). |
| EigenFaceCreator.CacheNameFirstBad | src/com/licence/eigenface/EigenFaceCreator.java:176-181 | The first bad entry decides the exception: NullPointerException for null, StringIndexOutOfBoundsException for a name without '.'. |
| EigenFaceCreator.FirstUnnamed | src/com/licence/eigenface/EigenFaceCreator.java:176-181 | The first entry that is null or has no '.'; every earlier entry is usable. |
| EigenFaceCreator.Names | src/com/licence/eigenface/EigenFaceCreator.java:189 | The names passed to computeBundle agree with every non-null entry of the set. |
| EigenFaceCreator.OpenedIsLastKnown | src/com/licence/eigenface/EigenFaceCreator.java:265-282 | Slot i is read from the last name at or before i that has a known extension. |
| EigenFaceCreator.ComputeBundleResult | src/com/licence/eigenface/EigenFaceCreator.java:261-292 | Of the checks modelled, computeBundle throws only "is not an image file!" for the first name or the size exception. A built bundle has one image per slot, reads slot 0 from the first name and takes its width and height from the first image. |
| EigenFaceCreator.Opened | src/com/licence/eigenface/EigenFaceCreator.java:265-282 | Slot i holds a file opened for one of the names 0..i, with the reader that name's extension selects. |
| EigenFaceCreator.OpenedUpTo | src/com/licence/eigenface/EigenFaceCreator.java:271-282 | There is one image file per slot. |
| EigenFaceCreator.OpenedUpToAt | src/com/licence/eigenface/EigenFaceCreator.java:282 | files[k] is the file that was current when slot k was reached. |
| EigenFaceCreator.UnknownExtensionReusesPreviousFile | src/com/licence/eigenface/EigenFaceCreator.java:265-282 | As written: ["a.jpg", "b.txt"] is accepted, and both slots are read from a.jpg. |
| EigenFaceCreator.FirstUnknown | src/com/licence/eigenface/EigenFaceCreator.java:274-280 | The first name with no reader; every earlier name has one. |
| EigenFaceCreator.StrictBundleReadsEveryName | src/com/licence/eigenface/EigenFaceCreator.java:271-292 | Corrected: any name with an unknown extension gives "is not an image file!". A built bundle reads every slot from its own name, with the reader that name's extension selects. |
| EigenFaceCreator.ComputeBundleStrict | src/com/licence/eigenface/EigenFaceCreator.java:271-292 | Corrected: of the checks modelled, it refuses a set only with "is not an image file!" for one of the set's names or with the size exception. A built bundle has one image per slot. |
| EigenFaceCreator.StrictAgreesWhenAllKnown | src/com/licence/eigenface/EigenFaceCreator.java:271-292 | When every extension is known, the written and the corrected computeBundle give the same result. |
| EigenFaceCreator.BuiltBundleIsUniform | src/com/licence/eigenface/EigenFaceCreator.java:163-195 | A bundle that submitSet returns comes from a set whose every entry is non-null and holds a '.'. It has FACES_NUMBER images, all of the bundle's width and height, and the set's names as ids. |
| EigenFaceCreator.SubmitSetResult | src/com/licence/eigenface/EigenFaceCreator.java:163-195 | submitSet throws "Can only accept a set of N files." exactly when the set does not hold FACES_NUMBER entries. |
| EigenFaceCreator.GroupResults | src/com/licence/eigenface/EigenFaceCreator.java:131-140 | One outcome per bundle slot. |
| EigenFaceCreator.GroupResultsPrefix | src/com/licence/eigenface/EigenFaceCreator.java:131-140 | The outcomes of the first m sets do not depend on how many sets follow. |
| EigenFaceCreator.GroupResultsAt | src/com/licence/eigenface/EigenFaceCreator.java:138 | Outcome k is submitSet on set k. |
| EigenFaceCreator.FirstFailure | src/com/licence/eigenface/EigenFaceCreator.java:131-140 | The first failing set; every earlier one succeeds. |
| EigenFaceCreator.FirstFailureAt | src/com/licence/eigenface/EigenFaceCreator.java:131-140 | A failure preceded only by successes is the first failure. |
| EigenFaceCreator.FailureStopsLoading | src/com/licence/eigenface/EigenFaceCreator.java:131-140 | When sets 0..i-1 succeed and set i fails, set i is the first failure among all sets. The outcomes before it are those already loaded. |
| EigenFaceCreator.LoadingStopsAtFailure | src/com/licence/eigenface/EigenFaceCreator.java:131-140 | Slots holding the bundles of sets 0..i-1 and null from i on, with set i failing, are exactly what readFaceBundles leaves, and set i's exception is the one thrown. |
| EigenFaceCreator.EveryGroupLoaded | src/com/licence/eigenface/EigenFaceCreator.java:131-141 | When every set succeeds, slots holding all their bundles are what readFaceBundles leaves, and it returns normally. |
| EigenFaceCreator.GroupsHaveRightSize | src/com/licence/eigenface/EigenFaceCreator.java:167-169 | readFaceBundles never triggers the "Can only accept a set of N files." exception. |
| EigenFaceCreator.ShortListFails | src/com/licence/eigenface/EigenFaceCreator.java:110-141 | With fewer names than FACES_NUMBER, the first bundle fails. |
| EigenFaceCreator.ScanIsFirstMinimum | src/com/licence/eigenface/EigenFaceCreator.java:69-81 | The min-scan from Double.MAX_VALUE gives the least distance and the id of the first bundle reaching it below Double.MAX_VALUE. It gives no id when no bundle goes below Double.MAX_VALUE. |
| EigenFaceCreator.Scan | src/com/licence/eigenface/EigenFaceCreator.java:69-80 | The running minimum never exceeds Double.MAX_VALUE. It has an id exactly when some bundle reported a distance below Double.MAX_VALUE. |
| EigenFaceCreator.FirstMinimumDistance | src/com/licence/eigenface/EigenFaceCreator.java:76-79 | Any two first minima have the same distance. |
| EigenFaceCreator.FirstMinimumIsUnique | src/com/licence/eigenface/EigenFaceCreator.java:76-79 | The first minimum is unique, so the scan's result is determined. |
| EigenFaceCreator.EigenFaceCreator.constructor | src/com/licence/eigenface/EigenFaceCreator.java:24-46 | FACES_NUMBER = 2, no bundles, DISTANCE = Double.MAX_VALUE. |
| EigenFaceCreator.EigenFaceCreator.SetFacesNumber | src/com/licence/eigenface/EigenFaceCreator.java:48-52 | Sets FACES_NUMBER to the argument. |
| EigenFaceCreator.EigenFaceCreator.CheckAgainst | src/com/licence/eigenface/EigenFaceCreator.java:64-88 | With no bundles or an unreadable image: null id, DISTANCE unchanged. A null bundle slot throws NullPointerException and leaves DISTANCE unchanged. Otherwise DISTANCE and the id are the first minimum over all bundles. |
| EigenFaceCreator.EigenFaceCreator.ComputeBundle | src/com/licence/eigenface/EigenFaceCreator.java:261-292 | Equals ComputeBundleResult, over the checks modelled (not the I/O exceptions of the image readers). An unknown first extension gives "not an image file". Each slot holds the sticky reader's file. A differing width or height gives the size exception. Otherwise the bundle is built. |
| EigenFaceCreator.EigenFaceCreator.BuildCacheName | src/com/licence/eigenface/EigenFaceCreator.java:173-181 | Equals CacheName, whose meaning CacheNameExists and CacheNameFirstBad state. |
| EigenFaceCreator.EigenFaceCreator.SubmitSet | src/com/licence/eigenface/EigenFaceCreator.java:163-195 | The size check comes first, then the first bad entry's exception, then computeBundle on the set's names. |
| EigenFaceCreator.EigenFaceCreator.FillGroup | src/com/licence/eigenface/EigenFaceCreator.java:132-137 | Turns the buffer holding set i-1 into set i; slots past the end of the list keep the previous names. |
| EigenFaceCreator.EigenFaceCreator.LoadGroup | src/com/licence/eigenface/EigenFaceCreator.java:131-139 | Fills set i and returns submitSet's outcome for it. |
| EigenFaceCreator.EigenFaceCreator.LoadBundles | src/com/licence/eigenface/EigenFaceCreator.java:131-140 | Starting from all-null slots, the bundles before the first failing set hold their results, and that slot and every later one stay null. The result is the first failure, or success. |
| EigenFaceCreator.EigenFaceCreator.ReadFaceBundles | src/com/licence/eigenface/EigenFaceCreator.java:110-141 | A negative FACES_NUMBER throws NegativeArraySizeException and a zero one throws ArithmeticException; both leave b unchanged. Otherwise b gets n/fn+1 slots: the bundles before the first failing set, null from there on, and the first failure is thrown. |

## Left out

- The numeric part of `EigenFaceComputation.submit` is not part of this model. That covers the mean face, the covariance matrix, the eigen-decomposition, normalisation, the weights and `divide`, which all rely on Jama matrix code that is not part of this model. `OrderEigenvectors` takes the eigenvalues and eigenvectors as inputs.
- The Java `double` arithmetic is real arithmetic: NaN, infinities and rounding are not modelled.
- Java's 32-bit `int` is an unbounded `int`, for instance in `j + FACES_NUMBER * i` (EigenFaceCreator.java:133-134), `files.length / FACES_NUMBER + 1` (line 128) and `(lo0 + hi0) / 2` (EigenFaceComputation.java:365). Overflow is not modelled. Each of these values is below the sum of two array lengths, so it can overflow only for arrays of more than 2^30 entries (over a billion file names, or a set buffer or eigenvalue array that large).
- `FaceBundle` and its `submitFace`, `distance()` and `getID()` are not part of this model. `CheckAgainst` takes what each bundle reports as input, and `FaceBundle` here records the names and image files a bundle is built from.
- Image decoding (`JPGFile`, `PPMFile`, `getDouble`) and `readImage` are not part of this model. Image sizes come from a caller-supplied function `dims`. The FileNotFoundException and IOException that `computeBundle` declares (EigenFaceCreator.java:261-262), which the `JPGFile` and `PPMFile` constructors and readers can throw (lines 275, 277, 285-289), are not modelled: opening and measuring an image always succeeds. `readImage` never returns null, so the `img != null` test always passes. The `None` input of `CheckAgainst` stands for that branch, which the source never takes. A null bitmap makes `readImage` throw a NullPointerException at EigenFaceCreator.java:313; that exception is not modelled.
- `readFaceBundles`: the directory listing and `Collections.sort` are input. The method takes the sorted file names. A `listFiles` that returns null (a missing directory) is not modelled. The directory prefix `dir` is dropped from the names.
- The cache is not modelled: the `System.currentTimeMillis()` file name, `readBundle`, `saveBundle` and `USE_CACHE`. `USE_CACHE` is -1 and never changed, so `computeBundle` always runs. The only observable effect of the cache name is the exceptions thrown while it is built.
- Logging (`Log.i`, `System.out.println`), `THRESHOLD` (unused), `root_dir` and the Android activity are left out.
- `FileNames.ToLower`: lowers only the ASCII letters A-Z. This is exact for the jpg/jpeg/ppm/pnm test. Java's locale-dependent lowering of other characters is not modelled.
- `EigenFaceComputation.Sum`: requires a non-empty array. On an empty array `sum` throws ArrayIndexOutOfBoundsException when it reads a[0] (EigenFaceComputation.java:316); that exception is not modelled.
- `EigenFaceComputation.Diag`: requires at least as many columns as rows. With fewer, `diag` throws ArrayIndexOutOfBoundsException at m[i][i] (EigenFaceComputation.java:283); that exception is not modelled. The matrix is rectangular (`array2`), where Java allows ragged rows. The only caller passes a square matrix.
- `EigenFaceComputation.Max`: requires a non-empty array. On an empty array `max` throws ArrayIndexOutOfBoundsException when it reads a[0] (EigenFaceComputation.java:333); that exception is not modelled.
- `EigenFaceComputation.OrderEigenvectors`: the model does not constrain the order in which the eigen-decomposition returns the eigenvalues. The reversal bug (Findings, row 2) shows only when they arrive out of ascending order. Jama's symmetric decomposition returns them ascending, so with it the bug stays latent in `submit`.
- `EigenFaceCreator.EigenFaceCreator.ReadFaceBundles`: `FaceBundle.ids` is a value, so each bundle keeps the names of its own set. The source hands the one reused `set` array to every bundle (EigenFaceCreator.java:118, 138, 189; EigenFaceComputation.java:214). If `FaceBundle` keeps that reference rather than a copy, a later set overwrites the ids of earlier bundles. `FaceBundle`'s source is not part of this model, so the model assumes a copy.
- `EigenFaceComputation.Max`: the documentation of `max` says it returns the sum of the elements. The code returns the maximum, and the model follows the code.
- `EigenFaceCreator.EigenFaceCreator.CheckAgainst`: an exception from `submitFace` is not modelled. The running minimum computed before a null slot is discarded, as in the source, because `DISTANCE` is assigned only after the loop.
- `FileNames.Extension`: reads the extension from the end of the name. `FileNames.ExtensionInJavaOrder` proves that this equals the Java order: lower-case, `lastIndexOf('.')`, `substring`.
- The loops of `doubleQuickSort` and `readFaceBundles`, and the cache-name loop of `submitSet`, are separate methods. These are `Partition`, `FillGroup`, `LoadGroup`, `LoadBundles` and `BuildCacheName`.
- `EigenFaceCreator.EigenFaceCreator.ReadFaceBundles`: the bundle array is a sequence of optional bundles. `LoadBundles` fills a local copy slot by slot, and `ReadFaceBundles` stores it in `b`, also when a set fails. In the source it is an array filled in place, so the two agree at every exit.

## Findings

| source | as written | input that shows it | evidently intended | confidence | as-written member | corrected member |
|---|---|---|---|---|---|---|
| src/com/licence/eigenface/EigenFaceComputation.java:414-415 | `swap` sets index[i] := i and index[j] := j instead of exchanging them, so the sorted index stays the identity | eigenvalues [2.0, 1.0] with index [0, 1]: the sort gives [1.0, 2.0] and index [0, 1] | exchange index[i] and index[j], so index[k] names where the k-th smallest value came from | not executed | QuickSort.SortTwoAsWritten | QuickSort.DoubleQuickSortTracked |
| src/com/licence/eigenface/EigenFaceComputation.java:142-173 | because of the swap, submit reverses the eigenvector columns instead of ordering them by eigenvalue; this differs from the intent only when the eigenvalues reach the sort out of ascending order, which Jama's symmetric decomposition does not produce, so in submit the bug is latent | eigenvalues handed to the sort out of ascending order, e.g. [2.0, 1.0] | column c is the eigenvector of the c-th largest eigenvalue | not executed | EigenFaceComputation.OrderEigenvectors | EigenFaceComputation.OrderEigenvectorsTracked |
| src/com/licence/eigenface/EigenFaceComputation.java:316 | `sum` starts from a[0] and then adds every element, so a[0] is counted twice | [1.0] gives 2.0 | start from 0.0 | not executed | EigenFaceComputation.Sum | EigenFaceComputation.SumCorrected |
| src/com/licence/eigenface/EigenFaceCreator.java:265 | `file` is declared outside the loop and never reset, so a later name with an unknown extension reuses the previous file | the set ["a.jpg", "b.txt"] is accepted and a.jpg is read twice | refuse every name whose extension is not jpg, jpeg, ppm or pnm | not executed | EigenFaceCreator.UnknownExtensionReusesPreviousFile | EigenFaceCreator.StrictBundleReadsEveryName |
