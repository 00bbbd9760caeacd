/** Transcript patches fetched page after page up to a fixed high water. Positions are
    decimal strings; the checks mix string and integer comparison. */
module PatchPages {
  import opened Utf8
  import opened Decimal

  const MAX_U64 := 18_446_744_073_709_551_615
  const MAX_PATCHES := 128

  /** `wellFormed` stands for the checks of a patch or page that do not involve positions. */
  datatype Patch = Patch(water: Text, wellFormed: bool)

  datatype Page = Page(through: Text, next: Text, patches: seq<Patch>, hasMore: bool, wellFormed: bool)

  /** `_canonical_decimal_u64` */
  predicate Position(t: Text) {
    Canonical(t) && |t| <= 20 && Value(t) <= MAX_U64
  }

  /** The positions are exactly the printed numbers of 64 bits. */
  lemma PositionIff(t: Text)
    ensures Position(t) <==> exists n: nat :: n <= MAX_U64 && t == Print(n)
  {
    hide Print, Value, Canonical;
    if Position(t) {
      PrintValue(t);
      assert Value(t) <= MAX_U64 && t == Print(Value(t));
    }
    if n: nat :| n <= MAX_U64 && t == Print(n) {
      ValuePrint(n);
      DigitsNeeded(n, 20);
      TwentyDigits();
      PrintIsCanonical(n);
    }
  }

  lemma PrintIsCanonical(n: nat)
    ensures Canonical(Print(n))
  {
  }

  lemma TwentyDigits()
    ensures MAX_U64 < PowerOfTen(20)
  {
    assert PowerOfTen(5) == 100_000;
    assert PowerOfTen(10) == 100_000 * PowerOfTen(5);
    assert PowerOfTen(15) == 100_000 * PowerOfTen(10);
    assert PowerOfTen(20) == 100_000 * PowerOfTen(15);
  }

  /** Equal strings and equal numbers are the same thing for canonical positions. */
  lemma PositionsCompare(a: Text, b: Text)
    requires Canonical(a) && Canonical(b)
    ensures a == b <==> Value(a) == Value(b)
  {
    PrintValue(a);
    PrintValue(b);
  }

  /** Patches climb strictly from `previous`, none beyond `through`. */
  predicate Climb(patches: seq<Patch>, previous: int, through: int)
    decreases |patches|
  {
    patches == [] || (
      && patches[0].wellFormed && Position(patches[0].water) && previous < Value(patches[0].water) <= through
      && Climb(patches[1..], Value(patches[0].water), through))
  }

  /** What a page after `after` must satisfy, as a statement about numbers. */
  predicate Follows(page: Page, after: Text) {
    && page.wellFormed && |page.patches| <= MAX_PATCHES
    && Position(page.through) && Position(page.next) && Position(after)
    && Climb(page.patches, Value(after), Value(page.through))
    && Value(page.next) == Reached(page.patches, Value(after))
    && (page.patches == [] ==> Value(after) == Value(page.through))
    && (page.hasMore <==> Value(page.next) < Value(page.through))
  }

  function Reached(patches: seq<Patch>, previous: int): int {
    if patches == [] || !Position(patches[|patches| - 1].water) then previous else Value(patches[|patches| - 1].water)
  }

  lemma {:induction false} ClimbAt(patches: seq<Patch>, previous: int, through: int, i: nat)
    requires Climb(patches, previous, through) && i < |patches|
    ensures patches[i].wellFormed && Position(patches[i].water) && previous < Value(patches[i].water) <= through
    ensures i > 0 ==> Position(patches[i - 1].water) && Value(patches[i - 1].water) < Value(patches[i].water)
    decreases |patches|
  {
    if i > 0 {
      ClimbAt(patches[1..], Value(patches[0].water), through, i - 1);
      if i > 1 { assert patches[1..][i - 2] == patches[i - 1]; }
    }
  }

  /** `_valid_transcript_patch_content` accepts exactly these pages. */
  method ValidPatchContent(page: Page, after: Text) returns (ok: bool)
    ensures ok <==> Follows(page, after)
  {
    hide Value, Climb;
    if !page.wellFormed { return false; }
    if !Position(page.through) || !Position(page.next) || !Position(after) { return false; }
    if |page.patches| > MAX_PATCHES { return false; }
    if Value(page.next) < Value(after) {
      NextIsLater(page, after);
      return false;
    }
    var previous := Value(after);
    for i := 0 to |page.patches|
      invariant previous == Reached(page.patches[..i], Value(after))
      invariant Climb(page.patches, Value(after), Value(page.through))
                <==> Climb(page.patches[i..], previous, Value(page.through))
    {
      var patch := page.patches[i];
      var rest := page.patches[i..];
      ClimbStep(rest, previous, Value(page.through));
      assert rest[1..] == page.patches[i + 1..];
      if !patch.wellFormed || !Position(patch.water) || Value(patch.water) > Value(page.through) { return false; }
      if Value(patch.water) <= previous { return false; }
      previous := Value(patch.water);
      assert page.patches[..i + 1][i] == patch;
    }
    ClimbNone(previous, Value(page.through));
    assert page.patches[|page.patches|..] == [] && page.patches[..|page.patches|] == page.patches;
    if page.patches != [] {
      ClimbAt(page.patches, Value(after), Value(page.through), |page.patches| - 1);
      PositionsCompare(page.next, page.patches[|page.patches| - 1].water);
      if page.next != page.patches[|page.patches| - 1].water { return false; }
    } else {
      PositionsCompare(page.next, page.through);
      PositionsCompare(after, page.through);
      if page.next != page.through || after != page.through { return false; }
    }
    ok := (Value(page.next) < Value(page.through)) == page.hasMore;
  }

  lemma ClimbNone(previous: int, through: int)
    ensures Climb([], previous, through)
  {
  }

  lemma ClimbStep(patches: seq<Patch>, previous: int, through: int)
    requires patches != []
    ensures Climb(patches, previous, through)
            <==> && patches[0].wellFormed && Position(patches[0].water) && previous < Value(patches[0].water) <= through
                 && Climb(patches[1..], Value(patches[0].water), through)
  {
  }

  /** A page never goes back, and moves on unless there is nothing left. */
  lemma NextIsLater(page: Page, after: Text)
    requires Position(after) && Position(page.next) && Position(page.through)
    ensures Follows(page, after) ==>
              && Value(after) <= Value(page.next) <= Value(page.through)
              && (page.patches != [] ==> Value(after) < Value(page.next))
              && (!page.hasMore <==> page.next == page.through)
              && (page.hasMore ==> page.patches != [])
  {
    hide Value;
    if Follows(page, after) {
      if page.patches != [] { ClimbAt(page.patches, Value(after), Value(page.through), |page.patches| - 1); }
      PositionsCompare(page.next, page.through);
    }
  }

  // ---------------------------------------------------------------- following pages

  /** Pages fetched one after the other: each from where the last one ended, up to the
      same high water, and none after a page that reports no more. */
  predicate Fetched(pages: seq<Page>, after: Text, through: Text)
    decreases |pages|
  {
    pages == [] || (
      && Follows(pages[0], after) && pages[0].through == through
      && (|pages| > 1 ==> pages[0].hasMore)
      && Fetched(pages[1..], pages[0].next, through))
  }

  function AllPatches(pages: seq<Page>): seq<Patch> {
    if pages == [] then [] else pages[0].patches + AllPatches(pages[1..])
  }

  lemma {:induction false} ClimbJoin(a: seq<Patch>, b: seq<Patch>, previous: int, through: int)
    requires Climb(a, previous, through) && Climb(b, Reached(a, previous), through)
    ensures Climb(a + b, previous, through)
    decreases |a|
  {
    if a == [] {
      assert a + b == b;
    } else {
      assert (a + b)[1..] == a[1..] + b;
      if |a| > 1 { assert a[1..][|a| - 2] == a[|a| - 1]; }
      ClimbAt(a, previous, through, |a| - 1);
      ClimbJoin(a[1..], b, Value(a[0].water), through);
    }
  }

  /** Across page boundaries the positions climb strictly, all in `(after, through]`. The
      fetching ends after at most `through - after + 1` pages, and the last page reports
      no more exactly when `through` has been reached. */
  lemma {:induction false} PagesClimb(pages: seq<Page>, after: Text, through: Text)
    requires Fetched(pages, after, through) && Position(after) && Position(through)
    ensures Climb(AllPatches(pages), Value(after), Value(through))
    ensures pages != [] ==> |pages| <= Value(through) - Value(after) + 1
    ensures pages != [] ==> (!pages[|pages| - 1].hasMore <==> pages[|pages| - 1].next == through)
    decreases |pages|
  {
    hide Value, Climb;
    if pages == [] {
      ClimbNone(Value(after), Value(through));
    } else {
      var page, rest := pages[0], pages[1..];
      NextIsLater(page, after);
      PagesClimb(rest, page.next, through);
      ClimbJoin(page.patches, AllPatches(rest), Value(after), Value(through));
      if rest != [] { assert rest[|rest| - 1] == pages[|pages| - 1]; }
    }
  }
}
