/** The label lookup of `label_email`: the first label of the account whose
    name equals the requested label decides which id is added. */
module Labels {
  import opened Wrappers
  import opened Json

  /** One entry of the account's label list. */
  datatype LabelRec = LabelRec(name: string, id: string)

  /** `labeli.get('name') == label`: only a string label can equal a name. */
  predicate Names(rec: LabelRec, wanted: Json) {
    wanted == Str(rec.name)
  }

  /** `i` is the position of the first record named `wanted`. */
  predicate IsFirstMatch(table: seq<LabelRec>, wanted: Json, i: int) {
    && 0 <= i < |table|
    && Names(table[i], wanted)
    && forall j | 0 <= j < i :: !Names(table[j], wanted)
  }

  /** The position `next(...)` stops at: the first record named `wanted`,
      or `|table|` when there is none. */
  function FirstMatch(table: seq<LabelRec>, wanted: Json): (i: nat)
    ensures i <= |table|
    ensures forall j | 0 <= j < i :: !Names(table[j], wanted)
    ensures i < |table| ==> Names(table[i], wanted)
  {
    if table == [] || Names(table[0], wanted) then 0
    else 1 + FirstMatch(table[1..], wanted)
  }

  /** What `label_email` does once it has the label list. */
  datatype Decision =
    | NoLabelList          // the list response has no 'labels' key
    | NoSuchLabel          // no record is named so, or the first one has an empty id
    | AddLabel(labelId: string)

  /** The decision of `label_email` for the label list (None when the
      response has no 'labels' key) and the requested label. */
  function Decide(labels: Option<seq<LabelRec>>, wanted: Json): Decision {
    match labels
    case None => NoLabelList
    case Some(table) =>
      var i := FirstMatch(table, wanted);
      if i == |table| || table[i].id == "" then NoSuchLabel else AddLabel(table[i].id)
  }

  /** A label is added exactly when the account has a label list whose first
      record named `wanted` has a non-empty id, and then it is that id. */
  lemma DecideChoosesFirstMatch(labels: Option<seq<LabelRec>>, wanted: Json)
    ensures labels.None? <==> Decide(labels, wanted) == NoLabelList
    ensures Decide(labels, wanted).AddLabel? <==>
      labels.Some? && exists i :: IsFirstMatch(labels.value, wanted, i) && labels.value[i].id != ""
    ensures Decide(labels, wanted).AddLabel? ==>
      exists i :: IsFirstMatch(labels.value, wanted, i) && Decide(labels, wanted).labelId == labels.value[i].id
  {
    if labels.Some? {
      var table := labels.value;
      var m := FirstMatch(table, wanted);
      if m < |table| {
        assert IsFirstMatch(table, wanted, m);
      }
      forall i | IsFirstMatch(table, wanted, i) ensures i == m {
      }
    }
  }

  /** A label nobody's record is named after is never added. */
  lemma {:induction false} UnknownLabelNotAdded(table: seq<LabelRec>, wanted: Json)
    requires forall i | 0 <= i < |table| :: !Names(table[i], wanted)
    ensures Decide(Some(table), wanted) == NoSuchLabel
  {
  }
}
