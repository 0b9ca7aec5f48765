# deepin image viewer: canvas scale logic and top toolbar, in Dafny

This project models two parts of the deepin album's image viewer and proves
properties about them.

**The image canvas** (`ImageView`) holds the following state:

- the uniform scale of the view transform;
- the two flags that say whether the view currently fits the image (1:1) or the window;
- the current path;
- the three content slots (vector item, animation item, decoded bitmap);
- the path whose background decode is still to report back.

It models zooming with roll-back into [0.02, 20], fit-to-window, fit-to-image
and the automatic choice between them, and the aspect-ratio fit factor. It
also models the ±0.01 tests that check the toolbar's adapt buttons, the swipe
navigation, and the three-way dispatch of `setImage` on the file suffix. The
guard in `onCacheFinish` shows a decoded bitmap only while its path is still
current. Rotation is a request to rotate the file on disk followed by a
reload. Each operation appends the signals it emits to a log, in order.
`SetGeometry` stands for the widget being resized or shown; it is not a
function of the source.

Every operation keeps the class invariant `Valid()`. The invariant includes
that fit-to-image and fit-to-window are never both on. The scale is not
always within [0.02, 20]: `fitWindow` sets the window-relative scale as it
is, e.g. 0.0125 for a 4000 × 3000 scene in a 50 × 50 view. Only
`setScaleValue`, started inside the bounds, keeps the scale in range
(`View.ScaleAfterOrder`).

**The top toolbar** (`TTBContent`) holds the following state:

- the image list and the thumbnail strip with its current index;
- the enable state of the adapt, rotate and trash buttons;
- the favourite (collect) button and the favourites album;
- the toolbar and file-name label widths.

It models the header sniff `getImageType`, the loop in `setImage` that finds
the current index and builds the strip, and the enabling of the buttons. It
also models the favourite toggle, `updateCollectButton` and the integer layout
of `updateFilenameLayout`.

Files:

- `wrappers.dfy` holds `Option`.
- `paths.dfy` holds the file name and suffix that `QFileInfo` returns, and ASCII lower-casing.
- `imageformat.dfy` holds the header sniff.
- `view.dfy` holds the canvas.
- `toolbar.dfy` holds the toolbar.

`qreal` is modelled as `real` (exact). A window-relative scale that IEEE
arithmetic would make infinite or NaN is `None`. Widget sizes are `nat`. The
toolbar's pixel arithmetic is modelled as `int`, with C++'s truncating `/ 2`
written out (`Half`).

The collaborators the code calls are inputs or logs:

- `QFileInfo` predicates and `imageSupportSave` are inputs (`FileFacts`).
- `DSvgRenderer().load` and the item it builds are inputs (`svgLoadable`, `loaded`).
- `QMovie::supportedFormats` is a constant set (`movieFormats`).
- `m_watcher.isRunning()` is an input (`watcherRunning`).
- The favourites album is a set of paths.
- The font metrics, the return button's width and the stored window-width setting are inputs.
- `utils::image::rotate` becomes an entry in a rotation log.

Two behaviours of the code are worth stating outright:

- An upward swipe asks for the next image even when the horizontal direction is Right (`View.UpOverridesRight`).
- The scale is rolled back only when a zoom-out ends at or below 0.02, or a zoom-in ends at or above 20. So a zoom-in on a scale below the minimum is applied as is, and so is a zoom-out above the maximum. A step that lands exactly on a bound keeps the fit flags.

## Model

| member | source | states |
|---|---|---|
| ImageFormat.ImageTypeAsWritten | module/view/contents/ttbcontent.cpp:49-95 | the switch as written tags a word exactly when it is one of the eight signature constants, and then with that constant's format |
| ImageFormat.ReadMagic | module/view/contents/ttbcontent.cpp:59-67 | the magic is the first four bytes read big-endian; a header shorter than four bytes (or an unopenable file) reads as 0 |
| ImageFormat.ReadMagicOfWordBytes | module/view/contents/ttbcontent.cpp:63-67 | reading back the four big-endian bytes of any word gives that word, whatever bytes follow |
| ImageFormat.ImageType | module/view/contents/ttbcontent.cpp:68-95 | intended sniff: JPEG exactly when the top three bytes are FF D8 FF, BMP exactly when the top two are "BM", PNG/GIF/TIFF exactly on their full constants |
| ImageFormat.GetImageType | module/view/contents/ttbcontent.cpp:59-97 | corrected getImageType (see Findings), on file bytes: a header shorter than four bytes gets no tag; JPEG exactly for FF D8 FF, BMP exactly for "BM", PNG, GIF and TIFF exactly for their four signature bytes; every other header gets none |
| ImageFormat.IntendedExtendsWritten | module/view/contents/ttbcontent.cpp:68-95 | apart from the two short constants, every tag the written switch gives is also given by the intended one |
| ImageFormat.JpegHeaderMissedAsWritten | module/view/contents/ttbcontent.cpp:69-75 | a JPEG header FF D8 FF DB gets no tag as written but JPEG as intended |
| ImageFormat.BmpHeaderMissedAsWritten | module/view/contents/ttbcontent.cpp:88-91 | a BMP header 42 4D 36 00 gets no tag as written but BMP as intended |
| ImageFormat.ShortJpegConstantMatchesOnlyLeadingZero | module/view/contents/ttbcontent.cpp:49-75 | the written switch calls the word 00 FF D8 FF a JPEG, and the 0xFFD8FF constant's top byte is 0 |
| Paths.FileNameSpec | module/view/contents/ttbcontent.cpp:607-610 | the file name is the part of the path after its last '/': a suffix of the path, without '/', preceded by '/', and the whole path when there is none |
| Paths.SuffixSpec | module/view/scen/imageview.cpp:170 | the suffix is the part of the file name after its last '.', holds neither '.' nor '/', and is empty when the name has no '.' |
| Paths.Lower | module/view/scen/imageview.cpp:170 | lower-casing keeps the length, leaves no upper-case letter, turns each upper-case letter into the same letter in lower case and keeps every other character |
| Paths.LowerIdempotent | module/view/scen/imageview.cpp:170 | lower-casing twice is lower-casing once |
| Paths.LowerIsSvg | module/view/scen/imageview.cpp:170-175 | a suffix lower-cases to "svg" exactly when it spells svg in any mix of cases |
| View.Near | module/view/scen/imageview.cpp:267-268 | the two strict comparisons hold together exactly when the distance is below 0.01 |
| View.AdaptImageSignal | module/view/scen/imageview.cpp:266-272 | "1:1 size" is checked exactly when the scale is within 0.01 of 1, otherwise unchecked |
| View.AdaptScreenSignal | module/view/scen/imageview.cpp:274-280 | "fit to window" is checked exactly when the window scale is finite and within 0.01 of the scale |
| View.WindowRelativeScale | module/view/scen/imageview.cpp:393-401 | a defined window-relative scale is never negative |
| View.WindowRelativeScaleUndefined | module/view/scen/imageview.cpp:393-401 | the quotient is infinite or NaN exactly when the scene has no width and either no height or the viewport has no width |
| View.WindowRelativeScaleIsMin | module/view/scen/imageview.cpp:393-401 | for a non-empty viewport and scene the factor is min(width/sceneWidth, height/sceneHeight) |
| View.WindowRelativeScaleFits | module/view/scen/imageview.cpp:328-332 | the fit-window scale makes the scene fit the viewport on both axes and touch it on one |
| View.ScaleAfter | module/view/scen/imageview.cpp:249-264 | the scale one setScaleValue step leaves; its contract is stated by View.ScaleAfterOrder |
| View.ScaleAfterOrder | module/view/scen/imageview.cpp:249-264 | one zoom step gives scale·v unless it is rolled back, and then the bound in the direction of the factor; it keeps the scale positive, keeps it in [0.02, 20] when it starts there, moves it in the direction of the factor unless it is rolled back to the bound, and a factor of 1 changes nothing |
| View.ZoomTransform | module/view/scen/imageview.cpp:249-261 | the intermediate scale is scale·v; the roll-back test on it is the written test; the result is the rolled-back scale |
| View.ZoomInSteps | module/view/scen/imageview.cpp:249-260 | n zoom-ins with factor v > 1 from a scale in bounds give min(20, scale·vⁿ) |
| View.ZoomInReachesMax | module/view/scen/imageview.cpp:258-260 | repeated zoom-ins reach exactly 20 after a computable number of steps and never exceed it |
| View.ZoomOutBelowMinimumEnlarges | module/view/scen/imageview.cpp:255-257 | from any positive scale below 0.02, a zoom-out step with any factor in (0, 1) is rolled back up to 0.02, which enlarges the scale |
| View.AutoFitChoice | module/view/scen/imageview.cpp:286-303 | nothing when the scene is inactive or the image is null; else fit-window exactly when the image reaches the viewport width or height and both view sides are positive; else fit-image |
| View.AutoFitIsMinOfNativeAndWindow | module/view/scen/imageview.cpp:286-303 | for a scene of the picture's own size, autoFit's scale is min(1, window scale): large images shrink, small ones are never magnified |
| View.SwipeNavigation | module/view/scen/imageview.cpp:645-656 | only a finished swipe navigates; next exactly when Left or Up, previous otherwise |
| View.UpOverridesRight | module/view/scen/imageview.cpp:648-650 | a finished swipe reporting Right and Up asks for the next image |
| View.KindOf | module/view/scen/imageview.cpp:170-222 | vector content exactly when the SVG renderer loads the file and its suffix spells svg in any case; animation content only for a lower-cased suffix among the animation formats; a background decode only for one that is not |
| View.Intersect | module/view/scen/imageview.cpp:429-432 | QRect intersection: never wider or taller than either operand; an overlap with both sides positive lies inside both operands; a rectangle with positive sides inside the other operand is returned unchanged |
| View.ZeroWidthSceneReportedVisible | module/view/scen/imageview.cpp:429-440 | a 0 × 50 scene inside the viewport keeps its column in the intersection, so the written test reports it wholly visible |
| View.WholeImageVisibleAsWritten | module/view/scen/imageview.cpp:429-440 | the test as written: when it reports a non-empty scene visible, the visible region does cover the scene |
| View.FractionalSceneNeverWhollyVisible | module/view/scen/imageview.cpp:429-440 | as written, a scene whose width or height has a fractional part is never reported wholly visible |
| View.CoveredFractionalSceneReportedHidden | module/view/scen/imageview.cpp:429-440 | a viewport covering a 50.5 × 50.5 scene is reported not wholly visible as written, and wholly visible as intended |
| View.WholeImageVisible | module/view/scen/imageview.cpp:434-440 | intended test: for a non-empty scene, wholly visible exactly when the visible region covers the scene rectangle |
| View.WholeImageVisibleAgreesOnIntegralScene | module/view/scen/imageview.cpp:429-440 | for a scene of whole-unit size whose sides are both 0 or both positive, the intended and written tests agree |
| View.ImageOf | module/view/scen/imageview.cpp:305-326 | with all three slots empty, image() is null |
| View.ShownImageHasScene | module/view/scen/imageview.cpp:291-299 | a non-null image always comes with a non-empty scene rectangle, so fitWindow is never applied to an empty scene |
| View.ImageView.constructor | module/view/scen/imageview.cpp:92-120 | a new view has scale 1, neither fit flag, no path, an empty scene with empty slots, no pending decode and no signals or rotations |
| View.ImageView.ImageRelativeScale | module/view/scen/imageview.cpp:387-391 | the transform's uniform factor is positive in every valid state |
| View.ImageView.SetScaleValue | module/view/scen/imageview.cpp:249-284 | the new scale is the rolled-back product; the flags are kept when rolled back and cleared otherwise; the button, scale, label and transform signals follow in order; the content is unchanged |
| View.ImageView.FitWindow | module/view/scen/imageview.cpp:328-344 | the scale becomes the window-relative scale; fit-window is set and fit-image cleared; "fit to window" is checked, and "1:1" is checked only if that scale is within 0.01 of 1 |
| View.ImageView.FitImage | module/view/scen/imageview.cpp:346-362 | the scale becomes 1; fit-image is set and fit-window cleared; "1:1" is checked, and "fit to window" only if the window scale is within 0.01 of 1 |
| View.ImageView.AutoFit | module/view/scen/imageview.cpp:286-303 | the state after autoFit is exactly that of the fit AutoFitChoice picks, or unchanged for no fit |
| View.ImageView.ShowItem | module/view/scen/imageview.cpp:175-219 | the vector or animation branch: the scene holds only the new item with its rectangle, the scale is 1, imageChanged is emitted |
| View.ImageView.StartDecode | module/view/scen/imageview.cpp:220-231 | the decode branch: the animation slot is emptied; the path is handed to the decoder and hideNavigation emitted only when the watcher is idle |
| View.ImageView.SetImage | module/view/scen/imageview.cpp:163-234 | an empty path changes nothing; otherwise the path becomes current and scene, pending decode, scale and signals are those of the kind KindOf picks (vector, animation, decode) |
| View.ImageView.OnCacheFinish | module/view/scen/imageview.cpp:558-597 | a result for a path that is no longer current changes nothing visible; a current one puts the bitmap in the scene (image() becomes it) and then autoFit decides scale, flags and signals |
| View.ImageView.RotateClockWise | module/view/scen/imageview.cpp:364-372 | a 90° rotation of the current path is requested, then the path is reloaded as setImage does |
| View.ImageView.RotateCounterclockwise | module/view/scen/imageview.cpp:374-379 | a -90° rotation of the current path is requested, then the path is reloaded as setImage does |
| View.ImageView.SwipeTriggered | module/view/scen/imageview.cpp:645-656 | the navigation signal SwipeNavigation names and nothing else is emitted; the view is otherwise unchanged |
| View.ImageView.IsWholeImageVisible | module/view/scen/imageview.cpp:429-440 | as written: for a non-empty scene of whole-unit size, true exactly when the visible region covers the scene rectangle; for a scene with a fractional width or height, never true |
| View.StaleDecodeIsIgnored | module/view/scen/imageview.cpp:562-565 | a decode of one path that finishes after another path has been shown leaves the other path's item on screen and no bitmap |
| Toolbar.CurrentIndex | module/view/contents/ttbcontent.cpp:517-542 | when some entry has the path, the index is that of the last such entry; when none has it, 0 |
| Toolbar.LastMatch | module/view/contents/ttbcontent.cpp:517-542 | the index found is the last entry with the path; none found means no entry has it |
| Toolbar.ScanStrip | module/view/contents/ttbcontent.cpp:517-544 | the loop leaves t at the last matching index (0 if none, always in range) and appends one thumbnail per entry exactly when the strip's count differed from the list size |
| Toolbar.RebuiltStrip | module/view/contents/ttbcontent.cpp:521-537 | from an emptied strip or a complete one, the loop leaves exactly one thumbnail per entry |
| Toolbar.RotateAllowed | module/view/contents/ttbcontent.cpp:589-603 | rotation is allowed exactly when the format can be saved and the file is not readable-but-read-only |
| Toolbar.Usable | module/view/contents/ttbcontent.cpp:491-492 | the path is non-empty and names an existing, readable file; its properties are stated through Toolbar.TTBContent.SetImage |
| Toolbar.RotateAllowedForReadable | module/view/contents/ttbcontent.cpp:589-603 | for a readable file the rotate buttons are enabled exactly when it is writable and its format can be saved |
| Toolbar.Half | module/view/contents/ttbcontent.cpp:421-425 | C++ halving truncates toward zero: the quotient is within one half of a/2 on the side of 0 |
| Toolbar.LeftContentWidth | module/view/contents/ttbcontent.cpp:397-404 | outside the album the width left of the name is 312 whatever the return button; in the album, for a return button of at most its 200-pixel maximum (lines 123-124), it is above 312 and at most 538 |
| Toolbar.LeftContentWidthGrows | module/view/contents/ttbcontent.cpp:397-404 | a wider return button never narrows the left content, and the album layout is wider than the folder layout |
| Toolbar.ToolbarWidth | module/view/contents/ttbcontent.cpp:412 | the toolbar width is the window width less the right title bar plus 2, and at least 1 |
| Toolbar.LayoutFileName | module/view/contents/ttbcontent.cpp:414-429 | the margin is never negative; the name is elided exactly when too wide, to min(space - 32, 600); a positive margin centres the shown text to within a pixel |
| Toolbar.LayoutMarginMonotone | module/view/contents/ttbcontent.cpp:421-425 | a wider window never gives the file-name label a smaller left margin |
| Toolbar.TTBContent.constructor | module/view/contents/ttbcontent.cpp:98-115 | the window width is the larger of the window's and the stored setting; the toolbar is 420 wide for at most one entry and 1280 otherwise; collect unchecked |
| Toolbar.TTBContent.UpdateCollectButton | module/view/contents/ttbcontent.cpp:616-635 | for a non-empty path the collect button shows album membership; for an empty one nothing changes |
| Toolbar.TTBContent.CollectClicked | module/view/contents/ttbcontent.cpp:213-225 | a checked image is removed from the favourites, an unchecked one added; ttbcontentClicked is emitted; the button state waits for the refresh |
| Toolbar.TTBContent.ReplaceList | module/view/contents/ttbcontent.cpp:478-490 | the new list is taken and the strip's layout emptied |
| Toolbar.TTBContent.LayoutStrip | module/view/contents/ttbcontent.cpp:504-586 | with more than one entry: one thumbnail per entry, current index from the loop, strip (n+1)·32 wide at x = 320 - 32·t, strip and navigation shown; otherwise both hidden and the toolbar 420 wide |
| Toolbar.TTBContent.EnableButtons | module/view/contents/ttbcontent.cpp:589-603 | adapt buttons enabled; rotate buttons disabled for a read-only file, else enabled exactly when the format can be saved; trash untouched |
| Toolbar.TTBContent.AnnounceFileName | module/view/contents/ttbcontent.cpp:606-611 | updateFileName carries the current file's name, or "" for an empty path |
| Toolbar.TTBContent.SetImage | module/view/contents/ttbcontent.cpp:476-614 | the list is replaced only when its size differs; an empty, missing or unreadable path disables all five buttons; otherwise the buttons and strip are as EnableButtons and LayoutStrip state; the path becomes current, its name is announced and the collect button refreshed |
| Toolbar.TTBContent.UpdateFilenameLayout | module/view/contents/ttbcontent.cpp:383-430 | the window width is the largest of window, toolbar and setting; the toolbar width is at least 1; the label is LayoutFileName on what is left right of the left content |
| Toolbar.ToggleFavourite | module/view/contents/ttbcontent.cpp:213-225 | a click then the refresh flip both the album membership and the button, touching no other path |
| Toolbar.ToggleTwiceRestores | module/view/contents/ttbcontent.cpp:213-225 | two toggles leave the favourites album and the button as they were |

## Left out

- View.ImageView.FitWindow: requires a non-empty viewport and scene. The source would scale by an infinite or NaN factor otherwise, and floating-point special values are not modelled. autoFit calls it only in that case (`View.ShownImageHasScene`).
- View.ImageView.SetScaleValue: requires a positive factor. Every caller passes a power of 1.2 or a pinch factor, and a non-positive one would mirror the transform.
- View.WindowRelativeScale: the aspect-ratio comparison is made by cross-multiplying in exact arithmetic. The infinite and NaN quotients IEEE would produce are folded into the zero-size cases (None, or the branch IEEE takes). Rounding is not modelled.
- Paths.Lower: lower-cases ASCII letters only. Qt's Unicode case mapping is not modelled.
- ImageFormat.GetImageType: computes the corrected sniff of the first Findings rows, not the whole-word switch as written. The switch as written is `ImageFormat.ImageTypeAsWritten` on `ImageFormat.ReadMagic`.
- The tag strings getImageType returns ("JEPG", "PNG", "GIF", "TIFF", "BMP", or a null string) are the constructors of `ImageFormat.Format` and `None`.
- ImageFormat.ReadMagic: an unopenable file and a short file both read as an empty or short header and give 0, as `QDataStream` leaves the word zero.
- The initial values of `m_isFitImage`, `m_isFitWindow` and `m_nowIndex` come from a header file that is not part of this model. They are taken as false, false and 0, and 1 is taken as the initial scale.
- `onCacheFinish` checks that the watcher's result has two entries. The decode routine always returns two, so that check is not modelled.
- `scene()->clear()` deletes the vector and animation items, but `m_movieItem` and `m_imgSvgItem` are not reset. The model keeps those slots as the pointers, not as the scene contents.
- Pixel decoding, SVG and animation rendering, painting, cursors, themes, style sheets and icons are not modelled. These are I/O and drawing.
- The thread pool, `QFutureWatcher` and the wait for the future are not modelled. This is concurrency. A finished decode is one sequential event (`OnCacheFinish`) carrying its bitmap.
- `scaleAtPoint`, `wheelEvent` and the pinch handler are not modelled: they depend on Qt's view geometry, `toPoint` rounding and `qPow`. A zoom is `SetScaleValue` with the factor as an input.
- The thumbnail images that `setImage` loads (with `getImageType` as the format hint) and each thumbnail's size, frame and style are not modelled. The strip keeps only each thumbnail's index.
- The strip's slide to its target x is an animation. Only the end position is kept.
- `m_imgList->setDisabled(false)` in the unusable-path branch is a widget flag with no effect on the modelled state.
- The trash button is disabled for an unusable path, but in the usable branch its re-enabling is commented out. The model keeps that: `EnableButtons` leaves it as it was.
- The `LITE_DIV` build's left-content width in `updateFilenameLayout` is not modelled.
- `resizeEvent` is not modelled. It only restyles the thumbnails and sets the window width, which `updateFilenameLayout` recomputes before it uses it.
- View.Intersect: a rectangle with a negative side is taken as empty. Qt swaps its edges instead. The viewport and the truncated scene rectangle never have a negative side.
- The `updateImageLoader` call after a rotation, and the rotation's success flag, belong to collaborators outside the model.
- The album database is a set of paths. The database's own storage is not modelled.

## Findings

| source | as written | input that shows it | evidently intended | confidence | as-written member | corrected member |
|---|---|---|---|---|---|---|
| module/view/contents/ttbcontent.cpp:49-75 | `IMAGE_TYPE_JEPG = 0xFFD8FF` is compared, like the three JPG constants, with the whole 32-bit header word | a JPEG beginning FF D8 FF DB (quantisation table first) reads as 0xFFD8FFDB and gets no tag; only the word 00 FF D8 FF matches the constant | 0xFFD8FF is a three-byte prefix: any header beginning FF D8 FF is JPEG | medium, not executed | ImageFormat.JpegHeaderMissedAsWritten | ImageFormat.GetImageType |
| module/view/contents/ttbcontent.cpp:56-91 | `IMAGE_TYPE_BMP = 0x424d` is compared with the whole 32-bit header word | a BMP file begins "BM" and then its size, e.g. 42 4D 36 00, which reads as 0x424D3600 and gets no tag | 0x424D is a two-byte prefix: any header beginning "BM" is BMP | medium, not executed | ImageFormat.BmpHeaderMissedAsWritten | ImageFormat.GetImageType |
| module/view/scen/imageview.cpp:429-440 | the visible part is intersected with a `QRect` built from the scene size truncated to int, then compared with the untruncated scene size | a 50.5 × 50.5 scene fully inside a 1000 × 1000 viewport at (-10, -10) is reported not wholly visible | the visible region is compared with the scene rectangle itself | medium, not executed | View.CoveredFractionalSceneReportedHidden | View.WholeImageVisible |
