/** The kinds of box a JONBIN hitbox record can carry, the decoder from the
    record's raw `u32` field, and the two label tables the editor window
    derives from a decoded kind: one for the box list, one for the canvas. */
module BoxKinds {

  /** Rust's `u32`: the width of `HitBox::kind` and of the window's `box_index`. */
  newtype u32 = x: int | 0 <= x < 0x1_0000_0000

  /** The eighteen box kinds, declared in discriminant order 0..17. */
  datatype BoxType =
    | Hurtbox | Hitbox | ExPoint | ExRect | ExVector | Push | TempCenter | Neck
    | Abdominal | AttackVsPush | SpGuard | RLeg | LLeg
    | Private0 | Private1 | Private2 | Private3 | ExtendJon

  /** The outcome of `BoxType::try_from`; the error carries no data (`Err(())`). */
  datatype Decoded = Ok(kind: BoxType) | Err

  /** The explicit discriminant of a variant, `b as u32`. */
  function Discriminant(b: BoxType): (v: u32)
    ensures v <= 17
  {
    match b
    case Hurtbox => 0
    case Hitbox => 1
    case ExPoint => 2
    case ExRect => 3
    case ExVector => 4
    case Push => 5
    case TempCenter => 6
    case Neck => 7
    case Abdominal => 8
    case AttackVsPush => 9
    case SpGuard => 10
    case RLeg => 11
    case LLeg => 12
    case Private0 => 13
    case Private1 => 14
    case Private2 => 15
    case Private3 => 16
    case ExtendJon => 17
  }

  /** `BoxType::try_from(v)`: compares `v` with each discriminant in turn and
      fails when none is equal. It succeeds exactly on 0..17, and what it
      returns is the one variant whose discriminant is `v`. */
  function TryFrom(v: u32): (r: Decoded)
    ensures r.Ok? <==> v <= 17
    ensures r.Ok? ==> Discriminant(r.kind) == v
  {
    if v == Discriminant(Hurtbox) then Ok(Hurtbox)
    else if v == Discriminant(Hitbox) then Ok(Hitbox)
    else if v == Discriminant(ExPoint) then Ok(ExPoint)
    else if v == Discriminant(ExRect) then Ok(ExRect)
    else if v == Discriminant(ExVector) then Ok(ExVector)
    else if v == Discriminant(Push) then Ok(Push)
    else if v == Discriminant(TempCenter) then Ok(TempCenter)
    else if v == Discriminant(Neck) then Ok(Neck)
    else if v == Discriminant(Abdominal) then Ok(Abdominal)
    else if v == Discriminant(AttackVsPush) then Ok(AttackVsPush)
    else if v == Discriminant(SpGuard) then Ok(SpGuard)
    else if v == Discriminant(RLeg) then Ok(RLeg)
    else if v == Discriminant(LLeg) then Ok(LLeg)
    else if v == Discriminant(Private0) then Ok(Private0)
    else if v == Discriminant(Private1) then Ok(Private1)
    else if v == Discriminant(Private2) then Ok(Private2)
    else if v == Discriminant(Private3) then Ok(Private3)
    else if v == Discriminant(ExtendJon) then Ok(ExtendJon)
    else Err
  }

  /** Decoding the discriminant of any variant gives that variant back. */
  lemma RoundTrip(b: BoxType)
    ensures TryFrom(Discriminant(b)) == Ok(b)
  {
  }

  /** The eighteen discriminants are pairwise distinct. */
  lemma DiscriminantsDistinct(a: BoxType, b: BoxType)
    ensures Discriminant(a) == Discriminant(b) ==> a == b
  {
    RoundTrip(a);
    RoundTrip(b);
  }

  /** The label the box list shows for a box of raw kind `kind`: the name of
      the decoded variant, or the empty string when the kind does not decode. */
  function ListLabel(kind: u32): (s: string)
    ensures s == "" <==> kind > 17
  {
    match TryFrom(kind)
    case Ok(Hurtbox) => "Hurtbox"
    case Ok(Hitbox) => "Hitbox"
    case Ok(ExPoint) => "ExPoint"
    case Ok(ExRect) => "ExRect"
    case Ok(ExVector) => "ExVector"
    case Ok(Push) => "Push"
    case Ok(TempCenter) => "TempCenter"
    case Ok(Neck) => "Neck"
    case Ok(Abdominal) => "Abdominal"
    case Ok(AttackVsPush) => "AttackVsPush"
    case Ok(SpGuard) => "SpGuard"
    case Ok(RLeg) => "RLeg"
    case Ok(LLeg) => "LLeg"
    case Ok(Private0) => "Private0"
    case Ok(Private1) => "Private1"
    case Ok(Private2) => "Private2"
    case Ok(Private3) => "Private3"
    case Ok(ExtendJon) => "ExtendJon"
    case Err => ""
  }

  /** The label the canvas computes for a box of raw kind `kind` (the colour it
      picks alongside is not modelled). It is the list label except for five
      kinds, which borrow the label of another kind. */
  function RenderLabel(kind: u32): (s: string)
    ensures s == "" <==> kind > 17
  {
    match TryFrom(kind)
    case Ok(Hurtbox) => "Hurtbox"
    case Ok(Hitbox) => "Hitbox"
    case Ok(ExPoint) => "Hitbox"
    case Ok(ExRect) => "ExRect"
    case Ok(ExVector) => "ExVector"
    case Ok(Push) => "Push"
    case Ok(TempCenter) => "TempCenter"
    case Ok(Neck) => "Neck"
    case Ok(Abdominal) => "Abdominal"
    case Ok(AttackVsPush) => "AttackVsPush"
    case Ok(SpGuard) => "SpGuard"
    case Ok(RLeg) => "RLeg"
    case Ok(LLeg) => "LLeg"
    case Ok(Private0) => "LLeg"
    case Ok(Private1) => "LLeg"
    case Ok(Private2) => "LLeg"
    case Ok(Private3) => "SpGuard"
    case Ok(ExtendJon) => "ExtendJon"
    case Err => ""
  }

  /** The five kinds whose canvas label is not their own name. */
  predicate Renamed(kind: u32)
  {
    kind == Discriminant(ExPoint) || kind == Discriminant(Private0) || kind == Discriminant(Private1)
    || kind == Discriminant(Private2) || kind == Discriminant(Private3)
  }

  /** The kind whose list label a kind's canvas label equals: ExPoint draws
      as Hitbox, Private0..2 as LLeg, Private3 as SpGuard, every other kind as
      itself. */
  function RenderAlias(kind: u32): (a: u32)
    ensures Renamed(kind) <==> a != kind
  {
    if kind == Discriminant(ExPoint) then Discriminant(Hitbox)
    else if kind == Discriminant(Private0) || kind == Discriminant(Private1) || kind == Discriminant(Private2)
    then Discriminant(LLeg)
    else if kind == Discriminant(Private3) then Discriminant(SpGuard)
    else kind
  }

  /** Reads a list label back as a kind; the left inverse of `ListLabel` on
      decodable kinds, used to show that no two kinds share a list label. */
  function LabelKind(s: string): (d: Decoded)
  {
    if s == "Hurtbox" then Ok(Hurtbox)
    else if s == "Hitbox" then Ok(Hitbox)
    else if s == "ExPoint" then Ok(ExPoint)
    else if s == "ExRect" then Ok(ExRect)
    else if s == "ExVector" then Ok(ExVector)
    else if s == "Push" then Ok(Push)
    else if s == "TempCenter" then Ok(TempCenter)
    else if s == "Neck" then Ok(Neck)
    else if s == "Abdominal" then Ok(Abdominal)
    else if s == "AttackVsPush" then Ok(AttackVsPush)
    else if s == "SpGuard" then Ok(SpGuard)
    else if s == "RLeg" then Ok(RLeg)
    else if s == "LLeg" then Ok(LLeg)
    else if s == "Private0" then Ok(Private0)
    else if s == "Private1" then Ok(Private1)
    else if s == "Private2" then Ok(Private2)
    else if s == "Private3" then Ok(Private3)
    else if s == "ExtendJon" then Ok(ExtendJon)
    else Err
  }

  lemma ListLabelInverse(kind: u32)
    ensures kind <= 17 ==> LabelKind(ListLabel(kind)) == TryFrom(kind)
  {
    match TryFrom(kind)
    case Ok(_) =>
    case Err =>
  }

  /** Two decodable kinds never share a list label. */
  lemma ListLabelInjective(a: u32, b: u32)
    requires ListLabel(a) == ListLabel(b)
    ensures a == b || (a > 17 && b > 17)
  {
    if a <= 17 || b <= 17 {
      ListLabelInverse(a);
      ListLabelInverse(b);
    }
  }

  /** The canvas label of every kind is the list label of its alias, and
      therefore differs from the kind's own list label exactly for the five
      renamed kinds. */
  lemma RenderLabelIsAliasListLabel(kind: u32)
    ensures RenderLabel(kind) == ListLabel(RenderAlias(kind))
    ensures RenderLabel(kind) == ListLabel(kind) <==> !Renamed(kind)
  {
    if ListLabel(kind) == ListLabel(RenderAlias(kind)) {
      ListLabelInjective(kind, RenderAlias(kind));
    }
  }

  /** Which boxes a box picked from the list is written back to: a box of
      kind `target` is matched by the label recorded for a picked box of kind
      `picked` exactly when the target's alias is the picked kind (or both
      kinds are undecodable, when both labels are empty). */
  lemma WriteBackTargets(picked: u32, target: u32)
    ensures RenderLabel(target) == ListLabel(picked)
            <==> (picked <= 17 && RenderAlias(target) == picked) || (picked > 17 && target > 17)
  {
    RenderLabelIsAliasListLabel(target);
    if RenderLabel(target) == ListLabel(picked) {
      ListLabelInjective(RenderAlias(target), picked);
    }
  }

  /** A box of one of the five renamed kinds, picked from the list, matches no
      box at all on the canvas, its own included. */
  lemma RenamedNeverWrittenBack(picked: u32, target: u32)
    requires Renamed(picked)
    ensures RenderLabel(target) != ListLabel(picked)
  {
    WriteBackTargets(picked, target);
  }

  /** Picking a Hitbox matches every ExPoint as well, picking LLeg matches
      Private0..2, and picking SpGuard matches Private3. */
  lemma BorrowedLabels()
    ensures RenderLabel(Discriminant(ExPoint)) == ListLabel(Discriminant(Hitbox))
    ensures forall t :: t in {Private0, Private1, Private2} ==>
                          RenderLabel(Discriminant(t)) == ListLabel(Discriminant(LLeg))
    ensures RenderLabel(Discriminant(Private3)) == ListLabel(Discriminant(SpGuard))
  {
  }
}
