/**
 * `replaceShirtImages` and `main` in content.js: one pass over the pitch
 * elements that swaps each recognised player's shirt image for a photo.
 * A slot is an abstract record of the two sub-elements the pass queries.
 */
module ShirtPatch {
  import opened Wrappers
  import opened Text
  import opened PlayerData
  import opened Matcher
  import opened Photo

  /**
   * The `img` in a slot's picture. `shirtClass` says whether its class
   * contains "Shirt__StyledShirt", the mark of the site's own shirt icon.
   */
  datatype Img = Img(shirtClass: bool, alt: string, src: string, srcset: seq<Candidate>)

  /**
   * One pitch element: the image inside its picture, if there is one, and
   * the text content of its name element, if there is one.
   */
  datatype Slot = Slot(image: Option<Img>, nameText: Option<string>)

  /** `querySelector('img[class*="Shirt__StyledShirt"]')` on the slot. */
  function ShirtOf(s: Slot): Option<Img>
  {
    if s.image.Some? && s.image.value.shirtClass then s.image else None
  }

  /** The image written for player `p`: the CDN photo, alt text `FPL_Name`, no shirt class. */
  function PlayerImage(p: Record): Img
  {
    Img(false, Interpolate(Get(p, "FPL_Name")), Src(p), Srcset(p))
  }

  /** What the `forEach` callback does with one slot. */
  datatype Step = Skip | Write(img: Img) | Abort

  function SlotStep(s: Slot, data: seq<Record>): Step
  {
    match ShirtOf(s)
    case None => Skip
    case Some(shirt) =>
      match s.nameText
      case None => Skip
      case Some(text) =>
        match FindPlayer(Trim(text), shirt.alt, data)
        case NoMatch => Skip
        case TypeError => Abort
        case Found(p) => Write(PlayerImage(p))
  }

  /** The slot after a callback with outcome `step`: only a Write changes it. */
  function Apply(s: Slot, step: Step): Slot
  {
    match step
    case Write(img) => s.(image := Some(img))
    case _ => s
  }

  /** The slot after its own callback ran. */
  function Patched(s: Slot, data: seq<Record>): Slot
  {
    Apply(s, SlotStep(s, data))
  }

  /** The slots after a pass, and whether a TypeError ended it early. */
  datatype PassResult = PassResult(slots: seq<Slot>, aborted: bool)

  /**
   * The `forEach` over the slots given each callback's outcome: outcomes
   * are applied in order and the first Abort leaves it and every later
   * slot as they were.
   */
  function Run(ss: seq<Slot>, steps: seq<Step>): (r: PassResult)
    requires |steps| == |ss|
    ensures |r.slots| == |ss|
  {
    if ss == [] then PassResult([], false)
    else if steps[0] == Abort then PassResult(ss, true)
    else
      var rest := Run(ss[1..], steps[1..]);
      PassResult([Apply(ss[0], steps[0])] + rest.slots, rest.aborted)
  }

  /** Each slot's callback outcome, computed from the slot as it was when the pass began. */
  function Steps(ss: seq<Slot>, data: seq<Record>): (steps: seq<Step>)
    ensures |steps| == |ss|
  {
    seq(|ss|, k requires 0 <= k < |ss| => SlotStep(ss[k], data))
  }

  /** One call of `replaceShirtImages` on slots `ss`. */
  function Pass(ss: seq<Slot>, data: seq<Record>): (r: PassResult)
    ensures |r.slots| == |ss|
  {
    Run(ss, Steps(ss, data))
  }

  /** The slots with the first `i` outcomes applied and the rest as they were. */
  function ApplyPrefix(ss: seq<Slot>, steps: seq<Step>, i: nat): (r: seq<Slot>)
    requires |steps| == |ss| && i <= |ss|
    ensures |r| == |ss|
  {
    seq(|ss|, k requires 0 <= k < |ss| => if k < i then Apply(ss[k], steps[k]) else ss[k])
  }

  /**
   * A run stops at the first Abort, at index `i`, or runs to the end when
   * there is none (`i == |ss|`): the slots before `i` get their outcomes,
   * the others stay as they were.
   */
  lemma {:induction false} RunStopsAt(ss: seq<Slot>, steps: seq<Step>, i: nat)
    requires |steps| == |ss| && i <= |ss|
    requires forall k :: 0 <= k < i ==> steps[k] != Abort
    requires i < |ss| ==> steps[i] == Abort
    ensures Run(ss, steps) == PassResult(ApplyPrefix(ss, steps, i), i < |ss|)
  {
    if ss != [] {
      if i == 0 {
        assert ApplyPrefix(ss, steps, i) == ss;
      } else {
        RunStopsAt(ss[1..], steps[1..], i - 1);
        assert ApplyPrefix(ss, steps, i) == [Apply(ss[0], steps[0])] + ApplyPrefix(ss[1..], steps[1..], i - 1);
      }
    }
  }

  /** A pass is the first slot's callback followed, unless it threw, by a pass over the rest. */
  lemma PassCons(s: Slot, ss: seq<Slot>, data: seq<Record>)
    ensures Pass([s] + ss, data) ==
              if SlotStep(s, data) == Abort then PassResult([s] + ss, true)
              else PassResult([Patched(s, data)] + Pass(ss, data).slots, Pass(ss, data).aborted)
  {
    var all := [s] + ss;
    assert all[0] == s && all[1..] == ss;
    assert Steps(all, data)[1..] == Steps(ss, data);
  }

  /** A patched slot's image has lost its shirt class, so its callback skips it from then on. */
  lemma PatchedIsSkipped(s: Slot, data: seq<Record>)
    requires SlotStep(s, data).Write?
    ensures ShirtOf(Patched(s, data)).None? && SlotStep(Patched(s, data), data) == Skip
  {
  }

  /**
   * What a run does to each slot: it is either left as it was or given its
   * outcome; a slot whose outcome is not a Write is left as it was; the run
   * aborts exactly when some outcome is Abort, and when none is, every slot
   * gets its outcome.
   */
  lemma {:induction false} RunEffects(ss: seq<Slot>, steps: seq<Step>)
    requires |steps| == |ss|
    ensures var r := Run(ss, steps);
      && (forall k :: 0 <= k < |ss| ==> r.slots[k] == ss[k] || r.slots[k] == Apply(ss[k], steps[k]))
      && (forall k :: 0 <= k < |ss| && !steps[k].Write? ==> r.slots[k] == ss[k])
      && (r.aborted <==> exists k :: 0 <= k < |ss| && steps[k] == Abort)
      && (!r.aborted ==> forall k :: 0 <= k < |ss| ==> r.slots[k] == Apply(ss[k], steps[k]))
  {
    if ss != [] && steps[0] != Abort {
      RunEffects(ss[1..], steps[1..]);
      var r, q := Run(ss, steps), Run(ss[1..], steps[1..]);
      assert forall k :: 1 <= k < |ss| ==> ss[k] == ss[1..][k - 1] && steps[k] == steps[1..][k - 1] && r.slots[k] == q.slots[k - 1];
      if q.aborted {
        var k :| 0 <= k < |ss[1..]| && steps[1..][k] == Abort;
        assert steps[k + 1] == Abort;
      }
    }
  }

  /**
   * What one pass does to each slot: it is either left as it was or
   * patched; a skipped slot is left as it was; a patched one no longer shows
   * a shirt; the pass aborts exactly when some callback throws, and when
   * none does, every slot gets its own callback's effect.
   */
  lemma PassEffects(ss: seq<Slot>, data: seq<Record>)
    ensures var r := Pass(ss, data);
      && (forall k :: 0 <= k < |ss| ==> r.slots[k] == ss[k] || r.slots[k] == Patched(ss[k], data))
      && (forall k :: 0 <= k < |ss| && SlotStep(ss[k], data) == Skip ==> r.slots[k] == ss[k])
      && (forall k :: 0 <= k < |ss| && r.slots[k] != ss[k] ==> ShirtOf(r.slots[k]).None?)
      && (r.aborted <==> exists k :: 0 <= k < |ss| && SlotStep(ss[k], data) == Abort)
      && (!r.aborted ==> forall k :: 0 <= k < |ss| ==> r.slots[k] == Patched(ss[k], data))
  {
    var steps := Steps(ss, data);
    RunEffects(ss, steps);
    var r := Pass(ss, data);
    forall k | 0 <= k < |ss| && r.slots[k] != ss[k] ensures ShirtOf(r.slots[k]).None? {
      PatchedIsSkipped(ss[k], data);
    }
    if r.aborted {
      var k :| 0 <= k < |ss| && steps[k] == Abort;
      assert SlotStep(ss[k], data) == Abort;
    }
  }

  /**
   * The pass is idempotent: a patched image has lost its shirt class and is
   * skipped, a skipped slot is skipped again, and an abort recurs at the
   * same slot. Re-running it on an unchanged page (as the observer
   * does after the pass's own writes) changes nothing.
   */
  lemma {:induction false} PassIdempotent(ss: seq<Slot>, data: seq<Record>)
    ensures Pass(Pass(ss, data).slots, data) == Pass(ss, data)
  {
    if ss != [] {
      var s, rest := ss[0], ss[1..];
      assert ss == [s] + rest;
      PassCons(s, rest, data);
      if SlotStep(s, data) != Abort {
        PassIdempotent(rest, data);
        var p := Patched(s, data);
        assert SlotStep(p, data) != Abort && Patched(p, data) == p by {
          if SlotStep(s, data).Write? {
            PatchedIsSkipped(s, data);
          }
        }
        PassCons(p, Pass(rest, data).slots, data);
      }
    }
  }

  /**
   * After a pass that ran to the end, a second pass writes no slot and
   * throws nowhere: every slot is skipped.
   */
  lemma SettledAfterCompletePass(ss: seq<Slot>, data: seq<Record>)
    requires !Pass(ss, data).aborted
    ensures forall k :: 0 <= k < |ss| ==> SlotStep(Pass(ss, data).slots[k], data) == Skip
  {
    PassEffects(ss, data);
    forall k | 0 <= k < |ss| ensures SlotStep(Pass(ss, data).slots[k], data) == Skip {
      if SlotStep(ss[k], data).Write? {
        PatchedIsSkipped(ss[k], data);
      }
    }
  }

  /**
   * The `forEach` callback on one pitch element: the two queries, the
   * lookup, and the photo to write when a player is found. A slot without
   * a shirt image or a name element is skipped; otherwise, with the trimmed
   * name and the shirt's alt text as team, a write installs the photo of a
   * record matching both, a throw comes from a record whose name matches
   * but whose team is missing, and the slot is skipped exactly when every
   * record misses.
   */
  method ProcessSlot(slot: Slot, data: seq<Record>) returns (step: Step)
    ensures step == SlotStep(slot, data)
    ensures ShirtOf(slot).None? || slot.nameText.None? ==> step == Skip
    ensures step.Write? ==> !step.img.shirtClass
    ensures ShirtOf(slot).Some? && slot.nameText.Some? ==>
              var name, team := Trim(slot.nameText.value), slot.image.value.alt;
              && (step.Write? ==> exists p :: p in data && NameMatches(p, name) && TeamMatches(p, team)
                                              && step.img == PlayerImage(p) && step.img.src == Src(p))
              && (step == Abort ==> exists i :: 0 <= i < |data| && Check(data[i], name, team) == Fault)
              && (step == Skip <==> forall i :: 0 <= i < |data| ==> Check(data[i], name, team) == Miss)
  {
    if !(slot.image.Some? && slot.image.value.shirtClass) {
      return Skip;
    }
    if slot.nameText.None? {
      return Skip;
    }
    var playerName := Trim(slot.nameText.value);
    var teamName := slot.image.value.alt;
    var player := FindPlayer(playerName, teamName, data);
    FindPlayerSound(playerName, teamName, data);
    match player
    case NoMatch => step := Skip;
    case TypeError => step := Abort;
    case Found(p) => step := Write(PlayerImage(p));
  }

  /**
   * `replaceShirtImages(playerData)` over the page's pitch elements, in
   * document order. Returns true when a TypeError escaped the `forEach`.
   */
  method ReplaceShirtImages(slots: array<Slot>, data: seq<Record>) returns (aborted: bool)
    modifies slots
    ensures slots[..] == Pass(old(slots[..]), data).slots
    ensures aborted == Pass(old(slots[..]), data).aborted
  {
    ghost var start := slots[..];
    ghost var steps := Steps(start, data);
    var i := 0;
    while i < slots.Length
      invariant 0 <= i <= slots.Length
      invariant forall k :: 0 <= k < i ==> steps[k] != Abort
      invariant slots[..] == ApplyPrefix(start, steps, i)
    {
      var slot := slots[i];
      var step := ProcessSlot(slot, data);
      assert slot == start[i] && step == steps[i];
      if step == Abort {
        break;
      }
      if step.Write? {
        slots[i] := slot.(image := Some(step.img));
      }
      i := i + 1;
    }
    RunStopsAt(start, steps, i);
    aborted := i < slots.Length;
  }

  /**
   * `main`: load the data; when it is not empty, run one pass and then
   * install the observer, which a TypeError thrown by that first pass
   * prevents. With no data nothing is touched and nothing is observed.
   */
  method Start(response: Option<string>, slots: array<Slot>) returns (data: seq<Record>, observing: bool)
    modifies slots
    ensures data == FetchPlayerData(response)
    ensures |data| == 0 ==> !observing && slots[..] == old(slots[..])
    ensures |data| > 0 ==> slots[..] == Pass(old(slots[..]), data).slots
                           && observing == !Pass(old(slots[..]), data).aborted
  {
    data := FetchPlayerData(response);
    observing := false;
    if |data| > 0 {
      var aborted := ReplaceShirtImages(slots, data);
      observing := !aborted;
    }
  }
}
