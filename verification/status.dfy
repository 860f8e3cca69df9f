/** The status part of drawing the boxes: from the decoded boxes, the list of
    class labels found and a tri-state colour, recomputed from scratch on every
    frame. The pixel drawing itself is not modelled. */
module Status {
  import opened Decoder

  /** The status colour: yellow for no detections, red when the stress class
      was seen, green otherwise. */
  datatype Color = Yellow | Green | Red {
    /** The colour's name as published to the status page. */
    function Name(): string {
      match this
      case Yellow => "yellow"
      case Green => "green"
      case Red => "red"
    }
  }

  /** The published names tell the three colours apart. */
  lemma NameInjective(a: Color, b: Color)
    ensures a.Name() == b.Name() <==> a == b
  {
    assert "yellow"[0] != "green"[0] && "green"[0] != "red"[0] && "yellow"[0] != "red"[0];
  }

  /** The labels of the model's classes, indexed by class id. */
  const ClassNames: seq<string> := ["Stress"]

  /** The label whose presence turns the status red. */
  const StressLabel: string := "Stress"

  /** What one frame leaves behind: its colour and one class label per box. */
  datatype Snapshot = Snapshot(color: Color, classes: seq<string>)

  /** A value, or the position of the first box whose class id does not index
      `ClassNames` (the list lookup fails there and the frame is abandoned). */
  datatype Outcome<T> = Done(value: T) | IndexError(at: nat)

  /** Class ids accepted by a list lookup: `-|ClassNames|` up to `|ClassNames| - 1`,
      negative ids counting from the end. */
  predicate ValidClassId(id: int) {
    -|ClassNames| <= id < |ClassNames|
  }

  /** The label a list lookup yields for a valid class id: with a single
      class, always the stress label. */
  function ClassName(id: int): (name: string)
    requires ValidClassId(id)
    ensures name in ClassNames
    ensures name == StressLabel
  {
    ClassNames[if id < 0 then id + |ClassNames| else id]
  }

  /** With the one-element class list, exactly the ids 0 and -1 can be looked up. */
  lemma ClassIdRange(id: int)
    ensures ValidClassId(id) <==> id == 0 || id == -1
  {
  }

  /** The class label of every box, in box order, or the first box whose
      class id has no label. */
  function Labels(boxes: seq<Box>): (r: Outcome<seq<string>>)
    ensures r.Done? <==> forall k :: 0 <= k < |boxes| ==> ValidClassId(boxes[k].classId)
    ensures r.Done? ==> |r.value| == |boxes|
    ensures r.Done? ==> forall k :: 0 <= k < |boxes| ==> ValidClassId(boxes[k].classId) && r.value[k] == ClassName(boxes[k].classId)
    ensures r.IndexError? ==> r.at < |boxes| && !ValidClassId(boxes[r.at].classId)
    ensures r.IndexError? ==> forall k :: 0 <= k < r.at ==> ValidClassId(boxes[k].classId)
  {
    if |boxes| == 0 then Done([])
    else if !ValidClassId(boxes[0].classId) then IndexError(0)
    else
      match Labels(boxes[1..])
      case Done(rest) => Done([ClassName(boxes[0].classId)] + rest)
      case IndexError(at) => IndexError(at + 1)
  }

  /** The reference status of a frame's boxes. */
  function DeriveStatus(boxes: seq<Box>): (r: Outcome<Snapshot>)
    ensures |boxes| == 0 ==> r == Done(Snapshot(Yellow, []))
    ensures r.Done? <==> forall k :: 0 <= k < |boxes| ==> ValidClassId(boxes[k].classId)
    ensures r.Done? ==> |r.value.classes| == |boxes|
    ensures r.Done? ==> forall k :: 0 <= k < |boxes| ==> ValidClassId(boxes[k].classId) && r.value.classes[k] == ClassName(boxes[k].classId)
    ensures r.Done? && |boxes| > 0 ==>
      (r.value.color == Red <==> exists k :: 0 <= k < |boxes| && ValidClassId(boxes[k].classId) && ClassName(boxes[k].classId) == StressLabel)
    ensures r.Done? && |boxes| > 0 ==> r.value.color != Yellow
    ensures r.IndexError? ==> r.at < |boxes| && !ValidClassId(boxes[r.at].classId)
    ensures r.IndexError? ==> forall k :: 0 <= k < r.at ==> ValidClassId(boxes[k].classId)
  {
    if |boxes| == 0 then Done(Snapshot(Yellow, []))
    else
      match Labels(boxes)
      case IndexError(at) => IndexError(at)
      case Done(labels) =>
        Done(Snapshot(if StressLabel in labels then Red else Green, labels))
  }

  /** The labelling loop: one lookup per box, in order, with a flag raised by
      the first stress label; it stops at the first class id with no label. */
  method DrawBoxesStatus(boxes: seq<Box>) returns (r: Outcome<Snapshot>)
    ensures r == DeriveStatus(boxes)
  {
    if |boxes| == 0 {
      return Done(Snapshot(Yellow, []));
    }
    var classes: seq<string> := [];
    var stressDetected := false;
    for i := 0 to |boxes|
      invariant |classes| == i
      invariant forall k :: 0 <= k < i ==> ValidClassId(boxes[k].classId) && classes[k] == ClassName(boxes[k].classId)
      invariant stressDetected <==> StressLabel in classes
    {
      var id := boxes[i].classId;
      if !ValidClassId(id) {
        return IndexError(i);
      }
      classes := classes + [ClassName(id)];
      if ClassName(id) == StressLabel {
        stressDetected := true;
      }
    }
    assert classes == DeriveStatus(boxes).value.classes;
    r := Done(Snapshot(if stressDetected then Red else Green, classes));
  }

  /** With the single stress class, a frame is never green: every label that
      can be looked up is the stress label. */
  lemma GreenUnreachable(boxes: seq<Box>)
    ensures DeriveStatus(boxes).Done? ==> DeriveStatus(boxes).value.color != Green
  {
    var r := DeriveStatus(boxes);
    if r.Done? && |boxes| > 0 {
      assert r.value.classes[0] == StressLabel;
    }
  }

  /** Boxes that all carry class id 0 are all labelled "Stress", and the
      colour is yellow with no boxes and red otherwise. */
  lemma {:induction false} ClassZeroStatus(boxes: seq<Box>)
    requires forall b :: b in boxes ==> b.classId == 0
    ensures DeriveStatus(boxes) == Done(Snapshot(if |boxes| == 0 then Yellow else Red, seq(|boxes|, k => StressLabel)))
  {
    assert forall k :: 0 <= k < |boxes| ==> boxes[k] in boxes;
    var r := DeriveStatus(boxes);
    assert r.value.classes == seq(|boxes|, k => StressLabel);
    if |boxes| > 0 {
      assert ClassName(boxes[0].classId) == StressLabel;
    }
  }

  /** Through the capture loop: decoded boxes always have labels, the frame is
      yellow with no classes when no candidate clears the default threshold,
      and red with one stress label per box otherwise. */
  lemma {:induction false} FrameStatus(rows: seq<Candidate>, shape: ImageShape)
    ensures var boxes := Decode(rows, shape, DefaultThreshold);
      && DeriveStatus(boxes).Done?
      && DeriveStatus(boxes).value.classes == seq(|boxes|, k => StressLabel)
      && (DeriveStatus(boxes).value.color == Yellow <==> forall i :: 0 <= i < |rows| ==> !Kept(rows[i], DefaultThreshold))
      && (DeriveStatus(boxes).value.color == Red <==> exists i :: 0 <= i < |rows| && Kept(rows[i], DefaultThreshold))
  {
    var boxes := Decode(rows, shape, DefaultThreshold);
    DecodeEmptyIff(rows, shape, DefaultThreshold);
    ClassZeroStatus(boxes);
  }
}
