/** Choosing the next prompt: round-robin through the pose list in debug mode, a
    random pose different from the current one otherwise. */
module Prompts {

  /** `[p for p in poses if p != current]`. */
  function Others(poses: seq<string>, current: string): (r: seq<string>)
    ensures |r| <= |poses|
    ensures forall p :: p in r <==> p in poses && p != current
  {
    if |poses| == 0 then []
    else
      var rest := Others(poses[1..], current);
      assert forall p :: p in poses <==> p == poses[0] || p in poses[1..];
      (if poses[0] != current then [poses[0]] else []) + rest
  }

  /** `random.choice(candidates)`: the random draw is an input, so every
      candidate is one possible outcome. */
  function Pick(candidates: seq<string>, draw: nat): (r: string)
    requires |candidates| > 0
    ensures r in candidates
  {
    candidates[draw % |candidates|]
  }

  /** Every candidate is the outcome of some draw. */
  lemma PickCanReachAny(candidates: seq<string>, x: string)
    requires x in candidates
    ensures exists draw: nat :: Pick(candidates, draw) == x
  {
    var k :| 0 <= k < |candidates| && candidates[k] == x;
    assert Pick(candidates, k) == x;
  }

  /** The debug index one step further round a list of `len` poses
      (`(index + 1) % len`). */
  function NextIndex(index: int, len: int): (i: int)
    requires len > 0
    ensures 0 <= i < len
    ensures 0 <= index < len ==> i == if index + 1 == len then 0 else index + 1
  {
    (index + 1) % len
  }

  /** Some pose other than `current` is on the list: a random change has
      somewhere to go. */
  predicate HasOther(poses: seq<string>, current: string) {
    exists p :: p in poses && p != current
  }

  /** The prompt and the debug index after a prompt change. */
  datatype Rotation = Rotation(prompt: string, index: int)

  /** `_change_prompt`. In debug mode the index moves one step round the list and
      the prompt is the pose there. Otherwise the new prompt is drawn from the
      poses that differ from the current one, and when there is none the prompt
      stays as it is; the index is not touched. */
  function Rotate(poses: seq<string>, prompt: string, index: int, debug: bool, draw: nat): (r: Rotation)
    requires |poses| > 0
    ensures debug ==> 0 <= r.index < |poses| && r.prompt == poses[r.index]
    ensures debug && 0 <= index < |poses| ==> r.index == if index + 1 == |poses| then 0 else index + 1
    ensures !debug ==> r.index == index
    ensures !debug && HasOther(poses, prompt) ==> r.prompt in poses && r.prompt != prompt
    ensures !debug && !HasOther(poses, prompt) ==> r.prompt == prompt
  {
    if debug then
      var i := NextIndex(index, |poses|);
      Rotation(poses[i], i)
    else
      var available := Others(poses, prompt);
      if |available| == 0 then Rotation(prompt, index)
      else Rotation(Pick(available, draw), index)
  }

  /** Outside debug mode, every pose other than the current one can come next. */
  lemma RotateCanReachAnyOther(poses: seq<string>, prompt: string, index: int, p: string)
    requires p in poses && p != prompt
    ensures exists draw: nat :: Rotate(poses, prompt, index, false, draw).prompt == p
  {
    var available := Others(poses, prompt);
    PickCanReachAny(available, p);
    var draw: nat :| Pick(available, draw) == p;
    assert Rotate(poses, prompt, index, false, draw).prompt == p;
  }

  /** The prompts shown by `n` debug-mode changes starting from `index`
      (see DebugTourIsRotate). */
  function DebugTour(poses: seq<string>, index: int, n: nat): (tour: seq<string>)
    requires 0 <= index < |poses|
    ensures |tour| == n
    decreases n
  {
    if n == 0 then []
    else
      var next := NextIndex(index, |poses|);
      [poses[next]] + DebugTour(poses, next, n - 1)
  }

  /** Each step of the tour is what Rotate does in debug mode. */
  lemma DebugTourIsRotate(poses: seq<string>, index: int, n: nat, prompt: string, draw: nat)
    requires 0 <= index < |poses| && n > 0
    ensures var r := Rotate(poses, prompt, index, true, draw);
      DebugTour(poses, index, n) == [r.prompt] + DebugTour(poses, r.index, n - 1)
  {
  }

  /** In debug mode the k-th change shows the pose k+1 places further down the
      list, and the change after the last pose shows the first one again. */
  lemma {:induction false} DebugTourWalksTheList(poses: seq<string>, index: int, n: nat)
    requires 0 <= index < |poses| && index + n <= |poses|
    ensures forall k :: 0 <= k < n ==>
      DebugTour(poses, index, n)[k] == poses[if index + k + 1 == |poses| then 0 else index + k + 1]
    decreases n
  {
    if n > 0 {
      var len := |poses|;
      var next := if index + 1 == len then 0 else index + 1;
      var tour := DebugTour(poses, index, n);
      assert tour == [poses[next]] + DebugTour(poses, next, n - 1);
      if index + 1 < len {
        DebugTourWalksTheList(poses, next, n - 1);
        forall k | 0 < k < n
          ensures tour[k] == poses[if index + k + 1 == len then 0 else index + k + 1]
        {
          assert tour[k] == DebugTour(poses, next, n - 1)[k - 1];
        }
      }
    }
  }

  /** From the first pose (index 0), the next len-1 debug changes show the rest of
      the list in file order, and one change more returns to the first pose. */
  lemma DebugTourVisitsEveryPose(poses: seq<string>)
    requires |poses| > 0
    ensures forall k :: 0 < k < |poses| ==> DebugTour(poses, 0, |poses|)[k - 1] == poses[k]
    ensures DebugTour(poses, 0, |poses|)[|poses| - 1] == poses[0]
  {
    DebugTourWalksTheList(poses, 0, |poses|);
  }
}
