/** The hitbox editor window: the table of parsed records of the open PAC
    archive, the selected file and the selected box, and the clicks and
    frame steps that change them. */
module BoxesWindows {
  import opened BoxKinds
  import opened JonBins

  /** A screen position; only its default value is used by what is modelled. */
  datatype Pos2 = Pos2(x: real, y: real)

  /** The rect the write-back copies: that of the selected box. With no box
      selected the value is never read (see `RenderBoxes`). */
  function SourceRect(currentBox: Option<HitBox>): (r: Rect)
  {
    match currentBox
    case Some(b) => b.rect
    case None => Rect(0, 0, 0, 0)
  }

  class BoxesWindow {
    var path: string
    var jonbins: map<string, JonBin>
    var selected: string
    var boxtype: string
    var offsetX: real
    var offsetY: real
    var lastCursorPos: Pos2
    var currentBox: Option<HitBox>
    var boxIndex: u32
    var currentName: string
    var isGbvs: bool

    /** A non-empty selected name is always a key of the table, so the
        lookups of the box list and of the canvas find their record. */
    ghost predicate Valid(): (b: bool)
      reads this
      ensures b && selected != "" ==> selected in jonbins
    {
      selected == "" || selected in jonbins
    }

    /** `BoxesWindow::default()`. */
    constructor ()
      ensures Valid()
      ensures path == "" && jonbins == map[] && selected == "" && boxtype == ""
      ensures offsetX == 0.0 && offsetY == 0.0 && lastCursorPos == Pos2(0.0, 0.0)
      ensures currentBox == None && boxIndex == 0 && currentName == "" && !isGbvs
    {
      path := "";
      jonbins := map[];
      selected := "";
      boxtype := "";
      offsetX, offsetY := 0.0, 0.0;
      lastCursorPos := Pos2(0.0, 0.0);
      currentBox := None;
      boxIndex := 0;
      currentName := "";
      isGbvs := false;
    }

    /** A click on `name` in the file list, which lists the table's names:
        the file becomes the selected one and the box selection is cleared. */
    method SelectFile(name: string)
      requires name in jonbins
      modifies this
      ensures Valid()
      ensures selected == name && currentBox == None && boxIndex == 0 && boxtype == "" && currentName == ""
      ensures jonbins == old(jonbins) && path == old(path) && isGbvs == old(isGbvs)
      ensures offsetX == old(offsetX) && offsetY == old(offsetY) && lastCursorPos == old(lastCursorPos)
    {
      currentBox := None;
      boxIndex := 0;
      boxtype := "";
      selected := name;
      currentName := "";
    }

    /** A click on entry `index` of group `group` in the box list of the
        selected file: the window records the position (cast to `u32`), the
        list label of the box's kind and a copy of the box. */
    method SelectBox(group: nat, index: nat)
      requires selected in jonbins
      requires group < |jonbins[selected].boxes| && index < |jonbins[selected].boxes[group]|
      modifies this
      ensures Valid() == old(Valid())
      ensures var picked := old(jonbins[selected].boxes[group][index]);
              boxIndex as int == index % U32Modulus && boxtype == ListLabel(picked.kind) && currentBox == Some(picked)
      ensures jonbins == old(jonbins) && selected == old(selected) && path == old(path)
      ensures currentName == old(currentName) && isGbvs == old(isGbvs)
      ensures offsetX == old(offsetX) && offsetY == old(offsetY) && lastCursorPos == old(lastCursorPos)
    {
      var hitbox := jonbins[selected].boxes[group][index];
      var kind := ListLabel(hitbox.kind);
      boxIndex := (index % U32Modulus) as u32;
      boxtype := kind;
      currentBox := Some(hitbox);
    }

    /** The inner write-back loop over one group of the selected record: the
        boxes at position `boxIndex` whose canvas label is `boxtype` get the
        rect of the selected box, which must exist when one of them does. */
    method RewriteGroup(boxgroup: seq<HitBox>) returns (r: seq<HitBox>)
      requires currentBox.None? ==> forall i :: 0 <= i < |boxgroup| ==> !Selects(boxIndex, boxtype, i, boxgroup[i].kind)
      ensures r == WriteBackGroup(boxgroup, boxIndex, boxtype, SourceRect(currentBox))
    {
      r := boxgroup;
      var index := 0;
      while index < |r|
        invariant index <= |r| == |boxgroup|
        invariant r[..index] == WriteBackGroup(boxgroup[..index], boxIndex, boxtype, SourceRect(currentBox))
        invariant r[index..] == boxgroup[index..]
      {
        var hitbox := r[index];
        assert hitbox == boxgroup[index];
        var kind := RenderLabel(hitbox.kind);
        if boxIndex as int == index % U32Modulus && boxtype == kind {
          var current := currentBox.value;
          r := r[index := CopyRect(hitbox, current.rect)];
        }
        assert boxgroup[..index + 1][..index] == boxgroup[..index];
        index := index + 1;
      }
      assert r == r[..index];
      assert boxgroup[..index] == boxgroup;
    }

    /** The outer write-back loop over every group of a record. */
    method RewriteBoxes(boxes: seq<seq<HitBox>>) returns (groups: seq<seq<HitBox>>)
      requires currentBox.None? ==> !AnySelected(boxes, boxIndex, boxtype)
      ensures groups == WriteBackBoxes(boxes, boxIndex, boxtype, SourceRect(currentBox))
    {
      groups := boxes;
      var g := 0;
      while g < |groups|
        invariant g <= |groups| == |boxes|
        invariant groups[..g] == WriteBackBoxes(boxes[..g], boxIndex, boxtype, SourceRect(currentBox))
        invariant groups[g..] == boxes[g..]
      {
        assert groups[g] == boxes[g];
        if currentBox.None? {
          NoneSelectedInGroup(boxes, boxIndex, boxtype, g);
        }
        var boxgroup := RewriteGroup(groups[g]);
        ghost var before := groups;
        groups := groups[g := boxgroup];
        assert groups[g + 1..] == before[g + 1..] == before[g..][1..];
        assert boxes[..g + 1][..g] == boxes[..g];
        g := g + 1;
      }
      assert groups == groups[..g];
      assert boxes[..g] == boxes;
    }

    /** The write-back part of drawing the canvas: every box of the selected
        record at within-group position `boxIndex` whose canvas label is
        `boxtype` gets the rect of the selected box. Reading that box
        unwraps `currentBox`, so some box must be selected whenever one
        passes the test. */
    method RenderBoxes()
      requires selected in jonbins
      requires currentBox.None? ==> !AnySelected(jonbins[selected].boxes, boxIndex, boxtype)
      modifies this`jonbins
      ensures jonbins == old(jonbins)[selected := old(jonbins)[selected].(boxes :=
                WriteBackBoxes(old(jonbins)[selected].boxes, boxIndex, boxtype, SourceRect(currentBox)))]
      ensures currentBox.None? ==> jonbins == old(jonbins)
      ensures old(Valid()) ==> Valid()
    {
      var jonb := jonbins[selected];
      var groups := RewriteBoxes(jonb.boxes);
      jonbins := jonbins[selected := jonb.(boxes := groups)];
      if currentBox.None? {
        WriteBackNoneSelected(jonb.boxes, boxIndex, boxtype, SourceRect(currentBox));
      }
    }

    /** `reset`: forgets the archive and every selection and puts the canvas
        back at its home offset. `current_name` and `is_gbvs` are kept. */
    method Reset()
      modifies this
      ensures Valid()
      ensures path == "" && jonbins == map[] && selected == "" && boxtype == ""
      ensures offsetX == 640.0 && offsetY == 802.0 && lastCursorPos == Pos2(0.0, 0.0)
      ensures currentBox == None && boxIndex == 0
      ensures currentName == old(currentName) && isGbvs == old(isGbvs)
    {
      path := "";
      jonbins := map[];
      selected := "";
      boxtype := "";
      offsetX := 640.0;
      offsetY := 802.0;
      lastCursorPos := Pos2(0.0, 0.0);
      currentBox := None;
      boxIndex := 0;
    }

    /** `read_pac`: parses every file of the archive in order and inserts
        each record that parses under its file's name. */
    method ReadPac(pac: Pac, parse: Parser)
      modifies this`jonbins
      ensures old(Valid()) ==> Valid()
      ensures jonbins == ReadFiles(old(jonbins), pac.files, isGbvs, parse)
    {
      for i := 0 to |pac.files|
        invariant old(Valid()) ==> Valid()
        invariant jonbins == ReadFiles(old(jonbins), pac.files[..i], isGbvs, parse)
      {
        var file := pac.files[i];
        match parse(file.contents, isGbvs) {
          case Some(jonb) =>
            jonbins := jonbins[file.name := jonb];
          case None =>
        }
        assert pac.files[..i + 1][..i] == pac.files[..i];
      }
      assert pac.files[..|pac.files|] == pac.files;
    }

    /** `open_file`: resets the window, then reads the archive. It always
        reports success. */
    method OpenFile(pac: Pac, parse: Parser) returns (ok: bool)
      modifies this
      ensures ok
      ensures Valid()
      ensures jonbins == ReadFiles(map[], pac.files, isGbvs, parse)
      ensures path == "" && selected == "" && boxtype == ""
      ensures offsetX == 640.0 && offsetY == 802.0 && lastCursorPos == Pos2(0.0, 0.0)
      ensures currentBox == None && boxIndex == 0
      ensures currentName == old(currentName) && isGbvs == old(isGbvs)
    {
      Reset();
      ReadPac(pac, parse);
      return true;
    }
  }

  /** Picking a box and then drawing the canvas in the same frame, which `ui`
      does only while a non-empty file name is selected: the pick is
      recorded, the selected record is replaced by its write-back from the
      picked box, the picked box keeps its rect, and the write-back
      precondition holds. */
  method PickThenRender(w: BoxesWindow, group: nat, index: nat)
    requires w.Valid() && w.selected != ""
    requires group < |w.jonbins[w.selected].boxes| && index < |w.jonbins[w.selected].boxes[group]|
    modifies w
    ensures w.Valid()
    ensures w.selected == old(w.selected) && w.path == old(w.path)
    ensures w.currentName == old(w.currentName) && w.isGbvs == old(w.isGbvs)
    ensures w.offsetX == old(w.offsetX) && w.offsetY == old(w.offsetY) && w.lastCursorPos == old(w.lastCursorPos)
    ensures var picked := old(w.jonbins[w.selected].boxes[group][index]);
            w.boxIndex as int == index % U32Modulus && w.boxtype == ListLabel(picked.kind) && w.currentBox == Some(picked)
    ensures var picked := old(w.jonbins[w.selected].boxes[group][index]);
            w.jonbins == old(w.jonbins)[w.selected :=
              JonBin(WriteBackBoxes(old(w.jonbins[w.selected].boxes), w.boxIndex, w.boxtype, picked.rect))]
    ensures group < |w.jonbins[w.selected].boxes| && index < |w.jonbins[w.selected].boxes[group]|
    ensures w.jonbins[w.selected].boxes[group][index] == old(w.jonbins[w.selected].boxes[group][index])
  {
    ghost var boxes: seq<seq<HitBox>> := w.jonbins[w.selected].boxes;
    ghost var picked: HitBox := boxes[group][index];
    w.SelectBox(group, index);
    ghost var written := WriteBackBoxes(boxes, w.boxIndex, w.boxtype, picked.rect);
    w.RenderBoxes();
    assert w.jonbins[w.selected].boxes == written;
    assert written[group][index] == picked by {
      WriteBackAfterPick(boxes, group, index, group, index);
    }
  }

  /** Choosing a file with a non-empty name and then drawing the canvas in the
      same frame, as `ui` does (an empty name shows no box list and no
      canvas): the write-back runs with index 0 and the empty label and no box
      selected, so it is safe exactly when no box at a position congruent to
      0 has an undecodable kind (see `FreshSelectionMatchesUndecodable` for
      the other direction); it then leaves the record unchanged. */
  method SelectFileThenRender(w: BoxesWindow, name: string)
    requires name != "" && name in w.jonbins
    requires forall g, i ::
               0 <= g < |w.jonbins[name].boxes| && 0 <= i < |w.jonbins[name].boxes[g]| && i % U32Modulus == 0
               ==> w.jonbins[name].boxes[g][i].kind <= 17
    modifies w
    ensures w.Valid() && w.selected == name && w.jonbins == old(w.jonbins)
    ensures w.currentBox == None && w.boxIndex == 0 && w.boxtype == "" && w.currentName == ""
    ensures w.path == old(w.path) && w.isGbvs == old(w.isGbvs)
    ensures w.offsetX == old(w.offsetX) && w.offsetY == old(w.offsetY) && w.lastCursorPos == old(w.lastCursorPos)
  {
    w.SelectFile(name);
    ghost var boxes: seq<seq<HitBox>> := w.jonbins[name].boxes;
    forall g, i | 0 <= g < |boxes| && 0 <= i < |boxes[g]|
      ensures !Selects(0, "", i, boxes[g][i].kind)
    {
      EmptyLabelSelectsUndecodable(0, i, boxes[g][i].kind);
    }
    w.RenderBoxes();
  }
}
