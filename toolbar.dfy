/**
 * The viewer's top toolbar (TTBContent): the thumbnail strip with its current
 * index, the enable state of the adapt, rotate and trash buttons, the
 * favourite (collect) button, and the width and file-name label layout.
 * The file system, the album database and the font metrics are inputs.
 */
module Toolbar {
  import opened Wrappers
  import Paths

  const LeftMargin: int := 10
  const IconWidth: int := 50
  /** The return button's maximum width, set in the constructor. */
  const ReturnBtnMax: int := 200
  const FilenameMaxLength: int := 600
  const RightTitlebarWidth: int := 100
  const LeftSpace: int := 20
  /** Horizontal pitch of one thumbnail in the strip. */
  const ThumbPitch: int := 32
  /** x-position the strip is slid to for the first thumbnail. */
  const StripAnchor: int := 320
  const NarrowWidth: int := 420
  const WideWidth: int := 1280
  /** The folder button's fixed width. */
  const FolderBtnWidth: int := 24

  /** One entry of the image list the toolbar shows. */
  datatype ImgInfo = ImgInfo(filePath: string)

  /** What QFileInfo and the image library report about a path. */
  datatype FileFacts = FileFacts(present: bool, readable: bool, writable: bool, supportsSave: bool)

  /** The notifications the toolbar sends. */
  datatype ToolbarSignal = UpdateFileName(name: string) | TtbContentClicked

  /** The file-name label's text: the name itself, or the name elided in the middle to a pixel width. */
  datatype LabelText = Full(name: string) | ElidedTo(name: string, width: int)

  datatype FileNameLabel = FileNameLabel(text: LabelText, leftMargin: int)

  /** Which of the adapt-image, adapt-screen, rotate-left, rotate-right and trash buttons are enabled. */
  datatype Buttons = Buttons(adaptImage: bool, adaptScreen: bool, rotateL: bool, rotateR: bool, trash: bool)

  const AllEnabled := Buttons(true, true, true, true, true)
  const AllDisabled := Buttons(false, false, false, false, false)

  /** The thumbnail strip's width and target x-position, and whether it and the previous/next buttons are shown. */
  datatype Strip = Strip(width: int, x: int, shown: bool, navShown: bool)

  /** The last index whose entry has the given path, if any. */
  function LastMatch(infos: seq<ImgInfo>, path: string): (r: Option<nat>)
    ensures r.Some? ==> r.value < |infos| && infos[r.value].filePath == path &&
                        forall j :: r.value < j < |infos| ==> infos[j].filePath != path
    ensures r.None? ==> forall j :: 0 <= j < |infos| ==> infos[j].filePath != path
  {
    if |infos| == 0 then None
    else if infos[|infos| - 1].filePath == path then Some(|infos| - 1)
    else LastMatch(infos[..|infos| - 1], path)
  }

  /** The index setImage selects: the last matching entry, or 0 when none matches. */
  function CurrentIndex(infos: seq<ImgInfo>, path: string): (r: nat)
    ensures (exists j :: 0 <= j < |infos| && infos[j].filePath == path) ==>
      r < |infos| && infos[r].filePath == path && forall j :: r < j < |infos| ==> infos[j].filePath != path
    ensures (forall j :: 0 <= j < |infos| ==> infos[j].filePath != path) ==> r == 0
  {
    match LastMatch(infos, path)
    case None => 0
    case Some(k) => k
  }

  /** The thumbnail items of a strip built for n entries, by their index. */
  function Indices(n: nat): (r: seq<nat>)
    ensures |r| == n && forall i :: 0 <= i < n ==> r[i] == i
  {
    seq(n, i requires 0 <= i < n => i)
  }

  /**
   * The loop of setImage over the entries: a thumbnail item i is appended
   * for every entry when the strip's item count differs from the list size
   * (the count is taken once, before the loop), and t ends at the last entry
   * whose path matches.
   */
  method ScanStrip(infos: seq<ImgInfo>, path: string, thumbs: seq<nat>) returns (t: nat, built: seq<nat>)
    ensures t == CurrentIndex(infos, path)
    ensures |infos| > 0 ==> t < |infos|
    ensures built == if |thumbs| != |infos| then thumbs + Indices(|infos|) else thumbs
  {
    var labelCount := |thumbs|;
    t := 0;
    built := thumbs;
    var i := 0;
    while i < |infos|
      invariant 0 <= i <= |infos|
      invariant t == CurrentIndex(infos[..i], path)
      invariant i > 0 ==> t < i
      invariant built == if labelCount != |infos| then thumbs + Indices(i) else thumbs
    {
      if labelCount != |infos| {
        built := built + [i];
      }
      if path == infos[i].filePath {
        t := i;
      }
      assert infos[..i + 1][..i] == infos[..i];
      i := i + 1;
    }
    assert infos[..i] == infos;
  }

  /** From an empty strip or a complete one, the loop leaves the complete strip of n items. */
  lemma RebuiltStrip(thumbs: seq<nat>, n: nat)
    requires thumbs == [] || thumbs == Indices(n)
    ensures (if |thumbs| != n then thumbs + Indices(n) else thumbs) == Indices(n)
  {
    if |thumbs| != n {
      assert thumbs == [];
      assert [] + Indices(n) == Indices(n);
    }
  }

  /** Rotation stays possible unless the file is read-only, and needs a format the library can save. */
  function RotateAllowed(facts: FileFacts): (r: bool)
    ensures r <==> facts.supportsSave && (facts.writable || !facts.readable)
  {
    if facts.readable && !facts.writable then false else facts.supportsSave
  }

  /** For a readable file the rotate buttons are enabled exactly when it is writable and savable. */
  lemma RotateAllowedForReadable(facts: FileFacts)
    requires facts.readable
    ensures RotateAllowed(facts) <==> facts.writable && facts.supportsSave
  {
  }

  /** setImage's guard: the path is non-empty and names an existing, readable file. */
  predicate Usable(p: string, facts: FileFacts)
  {
    p != "" && facts.present && facts.readable
  }

  /** C++ `a / 2` on int: halving with the quotient truncated toward zero. */
  function Half(a: int): (q: int)
    ensures a >= 0 ==> 0 <= 2 * q <= a <= 2 * q + 1
    ensures a < 0 ==> 2 * q - 1 <= a <= 2 * q <= 0
  {
    if a >= 0 then a / 2 else -((-a) / 2)
  }

  /** Halving with truncation toward zero is monotone. */
  lemma HalfMonotone(a: int, b: int)
    requires a <= b
    ensures Half(a) <= Half(b)
  {
  }

  /**
   * Width of everything left of the file name: the return or folder button,
   * six or five icons, the spacings. Outside the album it does not depend on
   * the return button; inside, for a return button of at most its maximum
   * width, it lies between the folder layout's 312 and 538.
   */
  function LeftContentWidth(inDB: bool, returnBtnWidth: int): (w: int)
    ensures !inDB ==> w == 312
    ensures inDB && 0 <= returnBtnWidth <= ReturnBtnMax ==> 312 < w <= 538
  {
    if inDB then returnBtnWidth + 6 + (IconWidth + 2) * 6 + LeftSpace
    else FolderBtnWidth + 8 + (IconWidth + 2) * 5 + LeftSpace
  }

  /** A wider return button never narrows the space left of the name, and the album layout is the wider one. */
  lemma LeftContentWidthGrows(inDB: bool, a: int, b: int)
    requires a <= b
    ensures LeftContentWidth(inDB, a) <= LeftContentWidth(inDB, b)
    ensures a >= 0 ==> LeftContentWidth(false, a) < LeftContentWidth(true, a)
  {
  }

  /** The toolbar's own width: the window width less the right title-bar part, at least 1. */
  function ToolbarWidth(windowWidth: int): (w: int)
    ensures w >= 1 && w >= windowWidth - RightTitlebarWidth + 2
    ensures w == 1 || w == windowWidth - RightTitlebarWidth + 2
  {
    if windowWidth - RightTitlebarWidth + 2 >= 1 then windowWidth - RightTitlebarWidth + 2 else 1
  }

  /** Whether the name is elided: it is wider than the space left or than the maximum label length. */
  predicate NeedsElide(contentWidth: int, strWidth: int)
  {
    strWidth > contentWidth || strWidth > FilenameMaxLength
  }

  /** Padding subtracted besides the left content: the label margin and 2 when elided, 6 otherwise. */
  function Pad(elided: bool): int
  {
    if elided then LeftMargin + 2 else 6
  }

  /**
   * The file-name label updateFilenameLayout builds. strWidth is the rendered
   * width of the name and elidedWidth that of the elided text, both from the
   * font metrics. A positive left margin centres the shown text in the window,
   * up to the pixel lost by integer halving; a zero margin means it does not
   * fit to the right of the left content.
   */
  function LayoutFileName(windowWidth: int, leftContentWidth: int, contentWidth: int,
                          fileName: string, strWidth: int, elidedWidth: int): (r: FileNameLabel)
    ensures r.leftMargin >= 0
    ensures r.text.ElidedTo? <==> NeedsElide(contentWidth, strWidth)
    ensures r.text.name == fileName
    ensures r.text.ElidedTo? ==>
      r.text.width <= FilenameMaxLength && r.text.width <= contentWidth - 32 &&
      (r.text.width == FilenameMaxLength || r.text.width == contentWidth - 32)
    ensures var shown := if r.text.ElidedTo? then elidedWidth else strWidth;
      var offset := leftContentWidth + Pad(r.text.ElidedTo?);
      (r.leftMargin > 0 ==> windowWidth - shown - 1 <= 2 * (r.leftMargin + offset) <= windowWidth - shown + 1) &&
      (r.leftMargin == 0 ==> 2 * offset >= windowWidth - shown - 1)
  {
    if NeedsElide(contentWidth, strWidth) then
      var width := if contentWidth - 32 <= FilenameMaxLength then contentWidth - 32 else FilenameMaxLength;
      var m := Half(windowWidth - elidedWidth) - leftContentWidth - LeftMargin - 2;
      FileNameLabel(ElidedTo(fileName, width), if m > 0 then m else 0)
    else
      var m := Half(windowWidth - strWidth) - leftContentWidth - 6;
      FileNameLabel(Full(fileName), if m > 0 then m else 0)
  }

  /** A wider window never pushes the file name further left. */
  lemma {:induction false} LayoutMarginMonotone(w1: int, w2: int, leftContentWidth: int, contentWidth: int,
                                                 fileName: string, strWidth: int, elidedWidth: int)
    requires w1 <= w2
    ensures LayoutFileName(w1, leftContentWidth, contentWidth, fileName, strWidth, elidedWidth).leftMargin <=
            LayoutFileName(w2, leftContentWidth, contentWidth, fileName, strWidth, elidedWidth).leftMargin
  {
    HalfMonotone(w1 - elidedWidth, w2 - elidedWidth);
    HalfMonotone(w1 - strWidth, w2 - strWidth);
  }

  class TTBContent {
    /** Whether the viewer was opened from the album (return button) or from a folder (folder button). */
    const inDB: bool
    var imgInfos: seq<ImgInfo>
    /** The thumbnail items in the strip's layout, by the index they were created with. */
    var thumbs: seq<nat>
    var nowIndex: nat
    var imagePath: string
    var windowWidth: int
    var contentWidth: int
    /** The toolbar's fixed width. */
    var fixedWidth: int
    var strip: Strip
    var buttons: Buttons
    /** Whether the collect button shows the image as a favourite. */
    var collectChecked: bool
    /** The paths in the favourites album. */
    var favourites: set<string>
    var fileNameLabel: FileNameLabel
    var emitted: seq<ToolbarSignal>

    /**
     * The strip holds no thumbnails, or one per entry of a list of more than
     * one, and then the current index names one of them.
     */
    ghost predicate Valid()
      reads this
    {
      (thumbs == [] || (|imgInfos| > 1 && thumbs == Indices(|imgInfos|))) &&
      (thumbs != [] ==> nowIndex < |thumbs|)
    }

    /**
     * The constructor: the window width is the larger of the window's and the
     * stored setting; the toolbar is 420 wide for at most one entry and 1280
     * otherwise; the collect button starts unchecked.
     */
    constructor (inDB: bool, infos: seq<ImgInfo>, windowGeometryWidth: int, settingWidth: int, favourites: set<string>)
      ensures Valid()
      ensures this.inDB == inDB && imgInfos == infos && this.favourites == favourites
      ensures windowWidth == (if windowGeometryWidth >= settingWidth then windowGeometryWidth else settingWidth)
      ensures contentWidth == (if |infos| <= 1 then NarrowWidth else WideWidth) && fixedWidth == contentWidth
      ensures !collectChecked && thumbs == [] && nowIndex == 0 && imagePath == ""
      ensures strip == Strip((|infos| + 1) * ThumbPitch, 0, false, false) && buttons == AllEnabled
      ensures fileNameLabel == FileNameLabel(Full(""), 0) && emitted == []
    {
      this.inDB := inDB;
      windowWidth := if windowGeometryWidth >= settingWidth then windowGeometryWidth else settingWidth;
      imgInfos := infos;
      if |infos| <= 1 {
        contentWidth := NarrowWidth;
      } else {
        contentWidth := WideWidth;
      }
      collectChecked := false;
      fixedWidth := contentWidth;
      strip := Strip((|infos| + 1) * ThumbPitch, 0, false, false);
      thumbs := [];
      nowIndex := 0;
      imagePath := "";
      buttons := AllEnabled;
      this.favourites := favourites;
      fileNameLabel := FileNameLabel(Full(""), 0);
      emitted := [];
    }

    /** updateCollectButton: for a non-empty path, the collect button shows album membership. */
    method UpdateCollectButton()
      modifies this
      ensures collectChecked == if imagePath == "" then old(collectChecked) else imagePath in favourites
      ensures imgInfos == old(imgInfos) && thumbs == old(thumbs) && imagePath == old(imagePath)
      ensures favourites == old(favourites) && emitted == old(emitted) && fileNameLabel == old(fileNameLabel)
      ensures windowWidth == old(windowWidth) && contentWidth == old(contentWidth) && fixedWidth == old(fixedWidth)
      ensures buttons == old(buttons) && strip == old(strip) && nowIndex == old(nowIndex)
    {
      if imagePath == "" {
        return;
      }
      collectChecked := imagePath in favourites;
    }

    /** The collect button is clicked: remove the image from the favourites if checked, else add it. */
    method CollectClicked()
      modifies this
      ensures favourites == if old(collectChecked) then old(favourites) - {imagePath} else old(favourites) + {imagePath}
      ensures emitted == old(emitted) + [TtbContentClicked]
      ensures collectChecked == old(collectChecked)
      ensures imgInfos == old(imgInfos) && thumbs == old(thumbs) && imagePath == old(imagePath)
      ensures fileNameLabel == old(fileNameLabel)
      ensures windowWidth == old(windowWidth) && contentWidth == old(contentWidth) && fixedWidth == old(fixedWidth)
      ensures buttons == old(buttons) && strip == old(strip) && nowIndex == old(nowIndex)
    {
      if collectChecked {
        favourites := favourites - {imagePath};
      } else {
        favourites := favourites + {imagePath};
      }
      emitted := emitted + [TtbContentClicked];
    }

    /** The list and strip items, the layout, and the selection with its buttons and signals, as before. */
    twostate predicate KeptList()
      reads this
    {
      imgInfos == old(imgInfos) && thumbs == old(thumbs) && nowIndex == old(nowIndex)
    }

    twostate predicate KeptLayout()
      reads this
    {
      windowWidth == old(windowWidth) && contentWidth == old(contentWidth) && fixedWidth == old(fixedWidth) &&
      fileNameLabel == old(fileNameLabel) && strip == old(strip)
    }

    twostate predicate KeptSelection()
      reads this
    {
      imagePath == old(imagePath) && favourites == old(favourites) && collectChecked == old(collectChecked) &&
      emitted == old(emitted) && buttons == old(buttons)
    }

    /** The start of setImage for a list of another size: take the new list and empty the strip's layout. */
    method ReplaceList(infos: seq<ImgInfo>)
      requires Valid()
      modifies this
      ensures Valid()
      ensures imgInfos == infos && thumbs == [] && nowIndex == old(nowIndex)
      ensures KeptLayout() && KeptSelection()
    {
      imgInfos := infos;
      var layout := thumbs;
      while |layout| > 0
      {
        layout := layout[1..];
      }
      thumbs := layout;
    }

    /**
     * The strip part of setImage for a usable path: for more than one entry,
     * lay out the strip around the current index; otherwise hide the strip
     * and the navigation and narrow the toolbar.
     */
    method LayoutStrip(p: string)
      requires Valid()
      modifies this
      ensures Valid()
      ensures imgInfos == old(imgInfos) && windowWidth == old(windowWidth) && fileNameLabel == old(fileNameLabel)
      ensures KeptSelection()
      ensures |imgInfos| > 1 ==>
        thumbs == Indices(|imgInfos|) && nowIndex == CurrentIndex(imgInfos, p) &&
        strip == Strip((|imgInfos| + 1) * ThumbPitch, StripAnchor - ThumbPitch * nowIndex, true, true) &&
        contentWidth == old(contentWidth) && fixedWidth == old(fixedWidth)
      ensures |imgInfos| <= 1 ==>
        strip == old(strip).(shown := false, navShown := false) && nowIndex == old(nowIndex) &&
        thumbs == old(thumbs) && contentWidth == NarrowWidth && fixedWidth == NarrowWidth
    {
      if |imgInfos| > 1 {
        strip := strip.(width := (|imgInfos| + 1) * ThumbPitch);
        var t, built := ScanStrip(imgInfos, p, thumbs);
        RebuiltStrip(thumbs, |imgInfos|);
        thumbs := built;
        nowIndex := t;
        strip := strip.(shown := true, x := StripAnchor - ThumbPitch * t, navShown := true);
      } else {
        strip := strip.(shown := false, navShown := false);
        contentWidth := NarrowWidth;
        fixedWidth := contentWidth;
      }
    }

    /**
     * The button part of setImage for a usable path: the adapt buttons are
     * enabled; the rotate buttons are disabled for a read-only file and
     * otherwise follow whether the format can be saved.
     */
    method EnableButtons(facts: FileFacts)
      modifies this
      ensures buttons == Buttons(true, true, RotateAllowed(facts), RotateAllowed(facts), old(buttons).trash)
      ensures imagePath == old(imagePath) && favourites == old(favourites) && collectChecked == old(collectChecked)
      ensures emitted == old(emitted) && KeptList() && KeptLayout()
    {
      buttons := buttons.(adaptImage := true, adaptScreen := true);
      if facts.readable && !facts.writable {
        buttons := buttons.(rotateL := false, rotateR := false);
      } else if facts.supportsSave {
        buttons := buttons.(rotateL := true, rotateR := true);
      } else {
        buttons := buttons.(rotateL := false, rotateR := false);
      }
    }

    /** The end of setImage: announce the current file's name (empty for an empty path). */
    method AnnounceFileName()
      modifies this
      ensures emitted == old(emitted) + [UpdateFileName(if imagePath == "" then "" else Paths.FileName(imagePath))]
      ensures imagePath == old(imagePath) && favourites == old(favourites) && collectChecked == old(collectChecked)
      ensures buttons == old(buttons) && KeptList() && KeptLayout()
    {
      var fileName := "";
      if imagePath != "" {
        fileName := Paths.FileName(imagePath);
      }
      emitted := emitted + [UpdateFileName(fileName)];
    }

    /**
     * setImage: replace the list (and empty the strip) only when its size
     * changed; disable the buttons for an unusable path, else show the
     * controls. Then the path becomes current, its file name is announced and
     * the collect button is refreshed.
     */
    method SetImage(p: string, infos: seq<ImgInfo>, facts: FileFacts)
      requires Valid()
      modifies this
      ensures Valid()
      ensures imgInfos == if |infos| != |old(imgInfos)| then infos else old(imgInfos)
      ensures imagePath == p && favourites == old(favourites) && windowWidth == old(windowWidth)
      ensures emitted == old(emitted) + [UpdateFileName(if p == "" then "" else Paths.FileName(p))]
      ensures collectChecked == if p == "" then old(collectChecked) else p in favourites
      ensures fileNameLabel == old(fileNameLabel)
      ensures !Usable(p, facts) ==>
        buttons == AllDisabled && strip == old(strip) && nowIndex == old(nowIndex) &&
        contentWidth == old(contentWidth) && fixedWidth == old(fixedWidth) &&
        thumbs == (if |infos| != |old(imgInfos)| then [] else old(thumbs))
      ensures Usable(p, facts) ==>
        buttons == Buttons(true, true, RotateAllowed(facts), RotateAllowed(facts), old(buttons).trash)
      ensures Usable(p, facts) && |imgInfos| > 1 ==>
        thumbs == Indices(|imgInfos|) && nowIndex == CurrentIndex(imgInfos, p) &&
        strip == Strip((|imgInfos| + 1) * ThumbPitch, StripAnchor - ThumbPitch * nowIndex, true, true) &&
        contentWidth == old(contentWidth) && fixedWidth == old(fixedWidth)
      ensures Usable(p, facts) && |imgInfos| <= 1 ==>
        strip == old(strip).(shown := false, navShown := false) && nowIndex == old(nowIndex) &&
        contentWidth == NarrowWidth && fixedWidth == NarrowWidth &&
        thumbs == (if |infos| != |old(imgInfos)| then [] else old(thumbs))
    {
      if |infos| != |imgInfos| {
        ReplaceList(infos);
      }
      if !Usable(p, facts) {
        buttons := AllDisabled;
      } else {
        EnableButtons(facts);
        LayoutStrip(p);
      }
      imagePath := p;
      AnnounceFileName();
      UpdateCollectButton();
    }

    /**
     * updateFilenameLayout: the window width is the largest of the window's,
     * the toolbar's own and the stored setting; the toolbar takes that less
     * the right title-bar part (at least 1), the name gets what is left right
     * of the left content, and the label is laid out by LayoutFileName. The
     * button width and the rendered text widths are inputs.
     */
    method UpdateFilenameLayout(windowGeometryWidth: int, settingWidth: int, returnBtnWidth: int,
                                strWidth: int, elidedWidth: int)
      requires Valid()
      modifies this
      ensures Valid()
      ensures windowWidth >= windowGeometryWidth && windowWidth >= old(fixedWidth) && windowWidth >= settingWidth
      ensures windowWidth == windowGeometryWidth || windowWidth == old(fixedWidth) || windowWidth == settingWidth
      ensures fixedWidth == ToolbarWidth(windowWidth) && fixedWidth >= 1
      ensures contentWidth == fixedWidth - LeftContentWidth(inDB, returnBtnWidth)
      ensures fileNameLabel == LayoutFileName(windowWidth, LeftContentWidth(inDB, returnBtnWidth), contentWidth,
                                              Paths.FileName(imagePath), strWidth, elidedWidth)
      ensures imgInfos == old(imgInfos) && thumbs == old(thumbs) && imagePath == old(imagePath)
      ensures favourites == old(favourites) && collectChecked == old(collectChecked) && emitted == old(emitted)
      ensures buttons == old(buttons) && strip == old(strip) && nowIndex == old(nowIndex)
    {
      var fileName := Paths.FileName(imagePath);
      var leftContentWidth := LeftContentWidth(inDB, returnBtnWidth);
      var widest := if windowGeometryWidth >= fixedWidth then windowGeometryWidth else fixedWidth;
      windowWidth := if widest >= settingWidth then widest else settingWidth;
      contentWidth := ToolbarWidth(windowWidth);
      fixedWidth := contentWidth;
      contentWidth := fixedWidth - leftContentWidth;
      fileNameLabel := LayoutFileName(windowWidth, leftContentWidth, contentWidth, fileName, strWidth, elidedWidth);
    }
  }

  /**
   * With the collect button in step with the album, a click followed by the
   * refresh setImage performs flips both the membership and the button.
   */
  method ToggleFavourite(bar: TTBContent)
    requires bar.imagePath != "" && bar.collectChecked == (bar.imagePath in bar.favourites)
    modifies bar
    ensures bar.imagePath == old(bar.imagePath) && bar.collectChecked == (bar.imagePath in bar.favourites)
    ensures bar.collectChecked == !old(bar.collectChecked)
    ensures (bar.imagePath in bar.favourites) == !(old(bar.imagePath) in old(bar.favourites))
    ensures bar.favourites - {bar.imagePath} == old(bar.favourites) - {bar.imagePath}
  {
    bar.CollectClicked();
    bar.UpdateCollectButton();
  }

  /** Toggling the favourite twice leaves the album as it was. */
  method ToggleTwiceRestores(bar: TTBContent)
    requires bar.imagePath != "" && bar.collectChecked == (bar.imagePath in bar.favourites)
    modifies bar
    ensures bar.favourites == old(bar.favourites) && bar.collectChecked == old(bar.collectChecked)
  {
    ghost var before := bar.favourites;
    ToggleFavourite(bar);
    ToggleFavourite(bar);
    forall y | true
      ensures y in bar.favourites <==> y in before
    {
      if y != bar.imagePath {
        assert y in bar.favourites - {bar.imagePath} <==> y in before - {bar.imagePath};
      }
    }
  }
}
