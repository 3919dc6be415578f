/**
 * Choosing a room code. `_generate_unique_room_code` draws up to fifty six-digit
 * candidates and returns the first one no quiz uses; after fifty collisions it returns
 * a fifty-first draw without checking it. `upload_notes` then tries to save the quiz
 * with such a code up to five times, giving up when every save hits the uniqueness
 * constraint. The random draws are the stream `draw`: `draw(n)` is the n-th candidate.
 */
module RoomCodes {
  import opened Wrappers
  import opened Models

  /** How many candidates are checked before the unchecked fallback. */
  const CheckedTries: nat := 50

  /** How many saves `upload_notes` attempts. */
  const SaveAttempts: nat := 5

  /** Every draw is six decimal digits, as `random.randint(0, 9)` six times produces. */
  ghost predicate SixDigitDraws(draw: nat -> string) {
    forall n :: IsRoomCode(draw(n))
  }

  /**
   * The choice from draw `pos` on with `left` checked candidates still to go: the code,
   * and the position of the next unused draw.
   */
  function PickFrom<C>(used: set<C>, draw: nat -> C, pos: nat, left: nat): (r: (C, nat))
    ensures pos < r.1 <= pos + left + 1
    ensures r.0 == draw(r.1 - 1)
    ensures forall j :: pos <= j < r.1 - 1 ==> draw(j) in used
    ensures r.0 !in used || r.1 == pos + left + 1
    decreases left
  {
    if left == 0 || draw(pos) !in used then (draw(pos), pos + 1)
    else PickFrom(used, draw, pos + 1, left - 1)
  }

  /**
   * `_generate_unique_room_code` starting at draw `pos`: the first free candidate among
   * the next fifty, every candidate before it taken; or, when all fifty are taken, the
   * fifty-first draw, free or not.
   */
  function Pick<C>(used: set<C>, draw: nat -> C, pos: nat): (r: (C, nat))
    ensures pos < r.1 <= pos + CheckedTries + 1
    ensures r.0 == draw(r.1 - 1)
    ensures forall j :: pos <= j < r.1 - 1 ==> draw(j) in used
    ensures r.0 !in used || r.1 == pos + CheckedTries + 1
  {
    PickFrom(used, draw, pos, CheckedTries)
  }

  /**
   * The pick is the first free draw after `n` taken ones, or the draw after fifty taken
   * ones: the loop of `_generate_unique_room_code` computes `Pick`.
   */
  lemma PickFromAfterTaken<C>(used: set<C>, draw: nat -> C, pos: nat, left: nat, n: nat)
    requires n <= left
    requires forall j :: pos <= j < pos + n ==> draw(j) in used
    requires n < left ==> draw(pos + n) !in used
    ensures PickFrom(used, draw, pos, left) == (draw(pos + n), pos + n + 1)
  {
  }

  /** The picked code is taken exactly when all fifty-one draws were taken. */
  lemma PickCollidesIff<C>(used: set<C>, draw: nat -> C, pos: nat)
    ensures Pick(used, draw, pos).0 in used <==> forall j :: pos <= j < pos + CheckedTries + 1 ==> draw(j) in used
    ensures Pick(used, draw, pos).0 in used ==> Pick(used, draw, pos).1 == pos + CheckedTries + 1
  {
  }

  /**
   * `_generate_unique_room_code` reading the store `db`, with the random candidates
   * taken from `draw` at position `pos` on; `next` is the position after the last draw.
   */
  method GenerateUniqueRoomCode(db: Db, draw: nat -> string, pos: nat) returns (code: RoomCode, next: nat)
    requires SixDigitDraws(draw)
    ensures (code, next) == Pick<string>(CodesInUse(db), draw, pos)
  {
    ghost var used := CodesInUse(db);
    next := pos;
    var tries := 0;
    while tries < CheckedTries
      invariant 0 <= tries <= CheckedTries
      invariant next == pos + tries
      invariant forall j :: pos <= j < next ==> draw(j) in used
    {
      code := draw(next);
      next := next + 1;
      if !CodeInUse(db, code) {
        PickFromAfterTaken<string>(used, draw, pos, CheckedTries, tries);
        return;
      }
      tries := tries + 1;
    }
    PickFromAfterTaken<string>(used, draw, pos, CheckedTries, tries);
    code := draw(next);
    next := next + 1;
  }

  /**
   * The save loop from attempt `SaveAttempts - left` on: the code saved and the next
   * draw position, or None when every remaining attempt picked a code in use. A failed
   * save rolls back, so the codes in use stay the same from one attempt to the next.
   */
  function SaveLoop<C>(used: set<C>, draw: nat -> C, pos: nat, left: nat): (r: (Option<C>, nat))
    ensures r.0.Some? ==> r.0.value !in used
    decreases left
  {
    if left == 0 then (None, pos)
    else
      var (code, next) := Pick(used, draw, pos);
      if code !in used then (Some(code), next) else SaveLoop(used, draw, next, left - 1)
  }

  /** Every draw from `lo` up to (not including) `hi` is a code in use. */
  ghost predicate AllTaken<C>(used: set<C>, draw: nat -> C, lo: nat, hi: nat) {
    forall j :: lo <= j < hi ==> draw(j) in used
  }

  /** How many draws `left` failed attempts consume: fifty-one each. */
  function Span(left: nat): nat {
    if left == 0 then 0 else Span(left - 1) + CheckedTries + 1
  }

  /**
   * Saving fails exactly when the `left` attempts drew fifty-one taken codes each: the
   * only way to report "Could not generate unique room code" is `Span(left)` taken draws
   * in a row.
   */
  lemma SaveLoopFailsIff<C>(used: set<C>, draw: nat -> C, pos: nat, left: nat)
    ensures SaveLoop(used, draw, pos, left).0 == None <==> AllTaken(used, draw, pos, pos + Span(left))
  {
    if SaveLoop(used, draw, pos, left).0 == None {
      FailsOnlyIfTaken(used, draw, pos, left);
    }
    if AllTaken(used, draw, pos, pos + Span(left)) {
      FailsIfTaken(used, draw, pos, left);
    }
  }

  /** A failed save loop consumed only taken draws. */
  lemma {:induction false} FailsOnlyIfTaken<C>(used: set<C>, draw: nat -> C, pos: nat, left: nat)
    requires SaveLoop(used, draw, pos, left).0 == None
    ensures AllTaken(used, draw, pos, pos + Span(left))
    decreases left
  {
    if left > 0 {
      var p := Pick(used, draw, pos);
      PickCollidesIff(used, draw, pos);
      FailsOnlyIfTaken(used, draw, p.1, left - 1);
      AllTakenSplit(used, draw, pos, p.1, pos + Span(left));
    }
  }

  /** When every draw the attempts can reach is taken, the save loop fails. */
  lemma {:induction false} FailsIfTaken<C>(used: set<C>, draw: nat -> C, pos: nat, left: nat)
    requires AllTaken(used, draw, pos, pos + Span(left))
    ensures SaveLoop(used, draw, pos, left).0 == None
    decreases left
  {
    if left > 0 {
      var p := Pick(used, draw, pos);
      PickCollidesIff(used, draw, pos);
      AllTakenSplit(used, draw, pos, p.1, pos + Span(left));
      FailsIfTaken(used, draw, p.1, left - 1);
    }
  }

  /** A run of taken draws splits at any point. */
  lemma AllTakenSplit<C>(used: set<C>, draw: nat -> C, lo: nat, mid: nat, hi: nat)
    requires lo <= mid <= hi
    ensures AllTaken(used, draw, lo, hi) <==> AllTaken(used, draw, lo, mid) && AllTaken(used, draw, mid, hi)
  {
  }

  /** With five attempts, creation reports failure only after 255 taken draws in a row. */
  lemma SaveFailsOnlyAfterAllDrawsTaken<C>(used: set<C>, draw: nat -> C, pos: nat)
    ensures SaveLoop(used, draw, pos, SaveAttempts).0 == None <==> AllTaken(used, draw, pos, pos + 255)
  {
    SaveLoopFailsIff(used, draw, pos, SaveAttempts);
    assert Span(SaveAttempts) == 255;
  }
}
