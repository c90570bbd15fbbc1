/** The values the editor window works on: a JONBIN record as groups of hit
    boxes, a PAC archive as a list of named files, the write-back of a
    selected box's rect over a record, and the table of parsed records built
    from an archive. */
module JonBins {
  import opened BoxKinds

  datatype Option<T> = None | Some(value: T)

  /** An `f32` carried as its 32-bit pattern: rect fields are only copied by
      the code modelled here, never computed on. */
  newtype F32Bits = x: int | 0 <= x < 0x1_0000_0000

  newtype byte = x: int | 0 <= x < 0x100

  /** The geometry of one box. */
  datatype Rect = Rect(xOffset: F32Bits, yOffset: F32Bits, width: F32Bits, height: F32Bits)

  /** One box of a record: its raw kind and its geometry. */
  datatype HitBox = HitBox(kind: u32, rect: Rect)

  /** A parsed JONBIN record, reduced to what the window reads and writes:
      its box groups. */
  datatype JonBin = JonBin(boxes: seq<seq<HitBox>>)

  /** One named file inside a PAC archive. */
  datatype PacFile = PacFile(name: string, contents: seq<byte>)

  datatype Pac = Pac(files: seq<PacFile>)

  /** The record parser `GGSTJonBin::parse(contents, is_gbvs)`, which lives in
      another library: every call site receives it as a parameter. */
  type Parser = (seq<byte>, bool) -> Option<JonBin>

  const U32Modulus: int := 0x1_0000_0000

  /** The write-back test for the box at within-group position `index` with
      raw kind `kind`: the position, truncated to `u32`, is the selected index
      and the box's canvas label is the selected label. Since the selected
      label comes from the list table, the test is passed by the boxes whose
      alias has that list label. */
  predicate Selects(boxIndex: u32, boxtype: string, index: nat, kind: u32): (b: bool)
    ensures b <==> boxIndex as int == index % U32Modulus && boxtype == ListLabel(RenderAlias(kind))
  {
    RenderLabelIsAliasListLabel(kind);
    boxIndex as int == index % U32Modulus && boxtype == RenderLabel(kind)
  }

  /** Some box of `boxes` passes the write-back test. */
  ghost predicate AnySelected(boxes: seq<seq<HitBox>>, boxIndex: u32, boxtype: string)
  {
    exists g, i :: 0 <= g < |boxes| && 0 <= i < |boxes[g]| && Selects(boxIndex, boxtype, i, boxes[g][i].kind)
  }

  /** When no box of the record passes the write-back test, none of group
      `g` does. */
  lemma NoneSelectedInGroup(boxes: seq<seq<HitBox>>, boxIndex: u32, boxtype: string, g: nat)
    requires !AnySelected(boxes, boxIndex, boxtype) && g < |boxes|
    ensures forall i :: 0 <= i < |boxes[g]| ==> !Selects(boxIndex, boxtype, i, boxes[g][i].kind)
  {
  }

  /** Overwrites the four rect fields of `h` with those of `from`. */
  function CopyRect(h: HitBox, from: Rect): (r: HitBox)
    ensures r.kind == h.kind && r.rect == from
  {
    h.(rect := h.rect.(xOffset := from.xOffset, yOffset := from.yOffset,
                       width := from.width, height := from.height))
  }

  /** The inner write-back loop over one group: exactly the boxes that pass
      the write-back test get the rect `from`; every kind, every other rect
      and the group's length stay as they were. */
  function WriteBackGroup(group: seq<HitBox>, boxIndex: u32, boxtype: string, from: Rect): (r: seq<HitBox>)
    ensures |r| == |group|
    ensures forall i :: 0 <= i < |group| ==> r[i].kind == group[i].kind
    ensures forall i :: 0 <= i < |group| ==>
              r[i].rect == if Selects(boxIndex, boxtype, i, group[i].kind) then from else group[i].rect
  {
    if group == [] then []
    else
      var n := |group| - 1;
      WriteBackGroup(group[..n], boxIndex, boxtype, from)
      + [if Selects(boxIndex, boxtype, n, group[n].kind) then CopyRect(group[n], from) else group[n]]
  }

  /** The outer write-back loop: every group is rewritten by the inner loop,
      with the within-group position as the index (the group itself is not
      part of the selection), and the number of groups is unchanged. */
  function WriteBackBoxes(boxes: seq<seq<HitBox>>, boxIndex: u32, boxtype: string, from: Rect): (r: seq<seq<HitBox>>)
    ensures |r| == |boxes|
    ensures forall g :: 0 <= g < |boxes| ==> r[g] == WriteBackGroup(boxes[g], boxIndex, boxtype, from)
  {
    if boxes == [] then []
    else
      var n := |boxes| - 1;
      WriteBackBoxes(boxes[..n], boxIndex, boxtype, from) + [WriteBackGroup(boxes[n], boxIndex, boxtype, from)]
  }

  /** A box is changed by the write-back only if it passes the write-back
      test, and then its rect is `from`; its kind is never changed. */
  lemma WriteBackFrame(boxes: seq<seq<HitBox>>, boxIndex: u32, boxtype: string, from: Rect, g: nat, i: nat)
    requires g < |boxes| && i < |boxes[g]|
    ensures var r := WriteBackBoxes(boxes, boxIndex, boxtype, from);
            i < |r[g]| && r[g][i].kind == boxes[g][i].kind
            && (Selects(boxIndex, boxtype, i, boxes[g][i].kind) ==> r[g][i].rect == from)
            && (!Selects(boxIndex, boxtype, i, boxes[g][i].kind) ==> r[g][i] == boxes[g][i])
  {
    var group := WriteBackBoxes(boxes, boxIndex, boxtype, from)[g];
    assert group == WriteBackGroup(boxes[g], boxIndex, boxtype, from);
    assert group[i].kind == boxes[g][i].kind;
  }

  /** When no box passes the write-back test, the write-back leaves the record
      as it was. */
  lemma WriteBackNoneSelected(boxes: seq<seq<HitBox>>, boxIndex: u32, boxtype: string, from: Rect)
    requires !AnySelected(boxes, boxIndex, boxtype)
    ensures WriteBackBoxes(boxes, boxIndex, boxtype, from) == boxes
  {
    var r := WriteBackBoxes(boxes, boxIndex, boxtype, from);
    forall g | 0 <= g < |boxes|
      ensures r[g] == boxes[g]
    {
      forall i | 0 <= i < |boxes[g]|
        ensures r[g][i] == boxes[g][i]
      {
        WriteBackFrame(boxes, boxIndex, boxtype, from, g, i);
      }
    }
  }

  /** Writing the same rect back twice changes nothing the first write did
      not: a written-back box keeps its kind and so passes the test again. */
  lemma WriteBackIdempotent(boxes: seq<seq<HitBox>>, boxIndex: u32, boxtype: string, from: Rect)
    ensures var once := WriteBackBoxes(boxes, boxIndex, boxtype, from);
            WriteBackBoxes(once, boxIndex, boxtype, from) == once
  {
    var once := WriteBackBoxes(boxes, boxIndex, boxtype, from);
    var twice := WriteBackBoxes(once, boxIndex, boxtype, from);
    forall g | 0 <= g < |boxes|
      ensures twice[g] == once[g]
    {
      forall i | 0 <= i < |boxes[g]|
        ensures twice[g][i] == once[g][i]
      {
        WriteBackFrame(boxes, boxIndex, boxtype, from, g, i);
        WriteBackFrame(once, boxIndex, boxtype, from, g, i);
      }
    }
  }

  /** With the empty label and a given index, the boxes that pass the
      write-back test are exactly the boxes at that index whose kind does not
      decode. */
  lemma EmptyLabelSelectsUndecodable(boxIndex: u32, index: nat, kind: u32)
    ensures Selects(boxIndex, "", index, kind) <==> boxIndex as int == index % U32Modulus && kind > 17
  {
  }

  /** The state a file selection leaves behind (index 0, empty label) selects
      some box of a record exactly when some group of it has a box of
      undecodable kind at a position congruent to 0: writing back from there
      unwraps an empty `current_box`. */
  lemma FreshSelectionMatchesUndecodable(boxes: seq<seq<HitBox>>)
    ensures AnySelected(boxes, 0, "")
            <==> exists g, i :: 0 <= g < |boxes| && 0 <= i < |boxes[g]| && i % U32Modulus == 0 && boxes[g][i].kind > 17
  {
    forall g, i | 0 <= g < |boxes| && 0 <= i < |boxes[g]|
      ensures Selects(0, "", i, boxes[g][i].kind) <==> i % U32Modulus == 0 && boxes[g][i].kind > 17
    {
      EmptyLabelSelectsUndecodable(0, i, boxes[g][i].kind);
    }
  }

  /** A box picked from the list records its position, its list label and its
      rect; writing that back leaves the picked box as it was, and rewrites
      another box at the same position exactly when the other box's canvas
      alias is the picked kind (both undecodable, when the picked kind is). */
  lemma WriteBackAfterPick(boxes: seq<seq<HitBox>>, g: nat, i: nat, h: nat, j: nat)
    requires g < |boxes| && i < |boxes[g]| && h < |boxes| && j < |boxes[h]|
    ensures var picked := boxes[g][i];
            var r := WriteBackBoxes(boxes, (i % U32Modulus) as u32, ListLabel(picked.kind), picked.rect);
            && r[g][i] == picked
            && (r[h][j].rect == picked.rect
                <== j % U32Modulus == i % U32Modulus
                    && ((picked.kind <= 17 && RenderAlias(boxes[h][j].kind) == picked.kind)
                        || (picked.kind > 17 && boxes[h][j].kind > 17)))
            && (r[h][j] != boxes[h][j]
                ==> j % U32Modulus == i % U32Modulus
                    && ((picked.kind <= 17 && RenderAlias(boxes[h][j].kind) == picked.kind)
                        || (picked.kind > 17 && boxes[h][j].kind > 17)))
  {
    var picked := boxes[g][i];
    var index := (i % U32Modulus) as u32;
    WriteBackFrame(boxes, index, ListLabel(picked.kind), picked.rect, g, i);
    WriteBackFrame(boxes, index, ListLabel(picked.kind), picked.rect, h, j);
    WriteBackTargets(picked.kind, boxes[h][j].kind);
  }

  /** A picked ExPoint, Private0, Private1, Private2 or Private3 box is never
      written back: its list label is no box's canvas label. */
  lemma RenamedPickLeavesRecord(boxes: seq<seq<HitBox>>, boxIndex: u32, picked: u32, from: Rect)
    requires Renamed(picked)
    ensures WriteBackBoxes(boxes, boxIndex, ListLabel(picked), from) == boxes
  {
    forall g, i | 0 <= g < |boxes| && 0 <= i < |boxes[g]|
      ensures !Selects(boxIndex, ListLabel(picked), i, boxes[g][i].kind)
    {
      RenamedNeverWrittenBack(picked, boxes[g][i].kind);
    }
    WriteBackNoneSelected(boxes, boxIndex, ListLabel(picked), from);
  }

  /** Picking "Hitbox #i" also rewrites every ExPoint box at position i. */
  lemma HitboxPickRewritesExPoint(boxes: seq<seq<HitBox>>, boxIndex: u32, from: Rect, g: nat, i: nat)
    requires g < |boxes| && i < |boxes[g]|
    requires boxes[g][i].kind == Discriminant(ExPoint) && boxIndex as int == i % U32Modulus
    ensures WriteBackBoxes(boxes, boxIndex, ListLabel(Discriminant(Hitbox)), from)[g][i].rect == from
  {
    WriteBackFrame(boxes, boxIndex, ListLabel(Discriminant(Hitbox)), from, g, i);
    BorrowedLabels();
  }

  /** One step of `read_pac`: a file whose parse succeeds is inserted under
      its name, replacing any earlier entry; a file that fails is skipped. */
  function InsertParsed(jonbins: map<string, JonBin>, file: PacFile, isGbvs: bool, parse: Parser): (m: map<string, JonBin>)
    ensures file.name in m <==> file.name in jonbins || parse(file.contents, isGbvs).Some?
    ensures parse(file.contents, isGbvs).Some? ==> m[file.name] == parse(file.contents, isGbvs).value
    ensures forall k :: k != file.name ==> (k in m <==> k in jonbins) && (k in m ==> m[k] == jonbins[k])
  {
    match parse(file.contents, isGbvs)
    case Some(jonb) => jonbins[file.name := jonb]
    case None => jonbins
  }

  /** The table `read_pac` leaves after visiting `files` in order. */
  function ReadFiles(jonbins: map<string, JonBin>, files: seq<PacFile>, isGbvs: bool, parse: Parser): (m: map<string, JonBin>)
    ensures jonbins.Keys <= m.Keys
  {
    if files == [] then jonbins
    else
      var n := |files| - 1;
      InsertParsed(ReadFiles(jonbins, files[..n], isGbvs, parse), files[n], isGbvs, parse)
  }

  /** File `i` of `files` parses. */
  predicate Parses(files: seq<PacFile>, i: nat, isGbvs: bool, parse: Parser)
    requires i < |files|
  {
    parse(files[i].contents, isGbvs).Some?
  }

  /** The names in the table after `read_pac` are the names it had before and
      the names of the files that parse. */
  lemma {:induction false} ReadFilesKeys(jonbins: map<string, JonBin>, files: seq<PacFile>, isGbvs: bool, parse: Parser, name: string)
    ensures name in ReadFiles(jonbins, files, isGbvs, parse)
            <==> name in jonbins || exists i :: 0 <= i < |files| && files[i].name == name && Parses(files, i, isGbvs, parse)
  {
    if files != [] {
      var n := |files| - 1;
      ReadFilesKeys(jonbins, files[..n], isGbvs, parse, name);
      if exists i :: 0 <= i < n && files[..n][i].name == name && Parses(files[..n], i, isGbvs, parse) {
        var i :| 0 <= i < n && files[..n][i].name == name && Parses(files[..n], i, isGbvs, parse);
        assert files[i] == files[..n][i];
      }
      if exists i :: 0 <= i < |files| && files[i].name == name && Parses(files, i, isGbvs, parse) {
        var i :| 0 <= i < |files| && files[i].name == name && Parses(files, i, isGbvs, parse);
        if i < n {
          assert files[..n][i] == files[i];
        }
      }
    }
  }

  /** A name carried by a parsing file maps to the record parsed from the last
      such file: later duplicates overwrite earlier ones. */
  lemma {:induction false} ReadFilesLastWins(jonbins: map<string, JonBin>, files: seq<PacFile>, isGbvs: bool, parse: Parser, i: nat)
    requires i < |files| && Parses(files, i, isGbvs, parse)
    requires forall j :: i < j < |files| && files[j].name == files[i].name ==> !Parses(files, j, isGbvs, parse)
    ensures var m := ReadFiles(jonbins, files, isGbvs, parse);
            files[i].name in m && m[files[i].name] == parse(files[i].contents, isGbvs).value
  {
    var n := |files| - 1;
    if i < n {
      forall j | i < j < n && files[..n][j].name == files[..n][i].name
        ensures !Parses(files[..n], j, isGbvs, parse)
      {
        assert files[..n][j] == files[j];
      }
      ReadFilesLastWins(jonbins, files[..n], isGbvs, parse, i);
      assert files[..n][i] == files[i];
    }
  }

  /** A name no parsing file carries keeps the entry (or the absence of one)
      it had before `read_pac`. */
  lemma {:induction false} ReadFilesKeepsOthers(jonbins: map<string, JonBin>, files: seq<PacFile>, isGbvs: bool, parse: Parser, name: string)
    requires forall i :: 0 <= i < |files| && files[i].name == name ==> !Parses(files, i, isGbvs, parse)
    ensures var m := ReadFiles(jonbins, files, isGbvs, parse);
            (name in m <==> name in jonbins) && (name in jonbins ==> m[name] == jonbins[name])
  {
    if files != [] {
      var n := |files| - 1;
      forall i | 0 <= i < n && files[..n][i].name == name
        ensures !Parses(files[..n], i, isGbvs, parse)
      {
        assert files[..n][i] == files[i];
      }
      ReadFilesKeepsOthers(jonbins, files[..n], isGbvs, parse, name);
    }
  }
}
