/**
 * The date parameters of the HGV metadata edit form, as the HGV meta
 * identifier controller receives them, and the rules by which it prunes and
 * completes them before they are written to EpiDoc: which sub-dates are
 * empty, which text dates are complete, which sub-date feeds each of the
 * `textDateWhen`, `textDateFrom` and `textDateTo` attributes, the
 * flattening of a sub-date for formatting, and the truncation of
 * notBefore/notAfter to a year.
 */
module HgvDates {
  import opened Common

  /** A form element: its text and its attributes, each of which the form may leave out. */
  datatype Element = Element(value: Option<string>, attributes: Option<map<string, string>>)

  /** An `onDate`, `fromDate` or `toDate`: its parts (`century`, `year`, …, `offset`) and attributes. */
  datatype SubDate = SubDate(children: map<string, Element>, attributes: map<string, string>)

  /** A `textDate` entry: its formatted text, its sub-dates and its attributes (`textDateWhen`, …). */
  datatype TextDate = TextDate(value: Option<string>, children: map<string, SubDate>,
                               attributes: map<string, Option<string>>)

  /** A certainty of a mentioned date. */
  datatype Certainty = Certainty(attributes: Option<map<string, string>>)

  /**
   * A `mentionedDate` entry, reduced to what the controller touches: the
   * certainties under `children/date/children/certainty`, or `None` when
   * that path is not there.
   */
  datatype MentionedDate = MentionedDate(certainties: Option<map<string, Certainty>>)

  const SubDateKinds: seq<string> := ["onDate", "fromDate", "toDate"]

  /** The element `part` of a sub-date is there and has a text (the code calls `empty?` on it). */
  predicate HasText(sub: SubDate, part: string) {
    part in sub.children && sub.children[part].value.Some?
  }

  function PartText(sub: SubDate, part: string): string
    requires HasText(sub, part)
  {
    sub.children[part].value.value
  }

  /**
   * What the emptiness test of the pruning reads: the century text, and each
   * further text only while the ones before it are empty (`&&` stops early).
   */
  predicate PruneReadable(sub: SubDate) {
    && HasText(sub, "century")
    && (PartText(sub, "century") == "" ==> HasText(sub, "year"))
    && (PartText(sub, "century") == "" && PartText(sub, "year") == "" ==> HasText(sub, "month"))
    && (PartText(sub, "century") == "" && PartText(sub, "year") == "" && PartText(sub, "month") == "" ==>
          HasText(sub, "day"))
  }

  /** Every `onDate`, `fromDate` and `toDate` present can be tested for emptiness. */
  predicate ChildrenPruneReadable(children: map<string, SubDate>) {
    forall kind :: kind in children && kind in SubDateKinds ==> PruneReadable(children[kind])
  }

  predicate TextDatesPruneReadable(dates: map<string, TextDate>) {
    forall k :: k in dates ==> ChildrenPruneReadable(dates[k].children)
  }

  /** A sub-date none of whose century, year, month and day is filled in. */
  predicate EmptySubDate(sub: SubDate)
    requires PruneReadable(sub)
  {
    PartText(sub, "century") == "" && PartText(sub, "year") == "" && PartText(sub, "month") == "" && PartText(sub, "day") == ""
  }

  /** The children of a date without its empty `onDate`, `fromDate` and `toDate`. */
  function PrunedChildren(children: map<string, SubDate>): (r: map<string, SubDate>)
    requires ChildrenPruneReadable(children)
    ensures forall kind :: kind in SubDateKinds ==>
              (kind in r <==> kind in children && !EmptySubDate(children[kind]))
    ensures forall k :: k in r ==> k in children && r[k] == children[k]
    ensures forall k :: k in children && k !in SubDateKinds ==> k in r
  {
    map k | k in children && (k in SubDateKinds ==> !EmptySubDate(children[k])) :: children[k]
  }

  /** A date that still names a day: an `onDate`, or both a `fromDate` and a `toDate`. */
  predicate Complete(date: TextDate) {
    "onDate" in date.children || ("fromDate" in date.children && "toDate" in date.children)
  }

  function PruneSubDates(date: TextDate): TextDate
    requires ChildrenPruneReadable(date.children)
  {
    date.(children := PrunedChildren(date.children))
  }

  /**
   * The text dates after pruning under the date-master flag: empty sub-dates
   * are dropped, then every date that is no longer complete.
   */
  function PrunedTextDates(dates: map<string, TextDate>): (r: map<string, TextDate>)
    requires TextDatesPruneReadable(dates)
    ensures forall k :: k in r <==> k in dates && Complete(PruneSubDates(dates[k]))
    ensures forall k :: k in r ==> r[k] == PruneSubDates(dates[k])
    ensures forall k :: k in r ==> Complete(r[k])
    ensures TextDatesPruneReadable(r)
  {
    map k | k in dates && Complete(PruneSubDates(dates[k])) :: PruneSubDates(dates[k])
  }

  /** Pruning a second time removes nothing more. */
  lemma PruneIdempotent(dates: map<string, TextDate>)
    requires TextDatesPruneReadable(dates)
    ensures PrunedTextDates(PrunedTextDates(dates)) == PrunedTextDates(dates)
  {
    var once := PrunedTextDates(dates);
    forall k | k in once
      ensures PruneSubDates(once[k]) == once[k]
    {
      var children := once[k].children;
      assert PrunedChildren(children) == children;
    }
  }

  /** A certainty the form left without a relation: `relation` present and empty. */
  predicate BlankRelation(c: Certainty) {
    c.attributes.Some? && "relation" in c.attributes.value && c.attributes.value["relation"] == ""
  }

  function KeptCertainties(certainties: map<string, Certainty>): (r: map<string, Certainty>)
    ensures forall k :: k in r <==> k in certainties && !BlankRelation(certainties[k])
    ensures forall k :: k in r ==> r[k] == certainties[k]
  {
    map k | k in certainties && !BlankRelation(certainties[k]) :: certainties[k]
  }

  /** A mentioned date with its blank-relation certainties removed; other entries are untouched. */
  function PruneMentionedDate(date: MentionedDate): (r: MentionedDate)
    ensures r.certainties.None? <==> date.certainties.None?
    ensures r.certainties.Some? ==> r.certainties.value == KeptCertainties(date.certainties.value)
  {
    match date.certainties
    case None => date
    case Some(c) => MentionedDate(Some(KeptCertainties(c)))
  }

  lemma PruneMentionedDateIdempotent(date: MentionedDate)
    ensures PruneMentionedDate(PruneMentionedDate(date)) == PruneMentionedDate(date)
  {
    if date.certainties.Some? {
      var kept := KeptCertainties(date.certainties.value);
      assert KeptCertainties(kept) == kept;
    }
  }

  /** The three attributes the controller computes for a text date. */
  datatype Slot = Chron | ChronMin | ChronMax

  const Slots: seq<Slot> := [Chron, ChronMin, ChronMax]

  function SlotAttribute(slot: Slot): string {
    match slot
    case Chron => "textDateWhen"
    case ChronMin => "textDateFrom"
    case ChronMax => "textDateTo"
  }

  /** The completion calls `empty?` on the offset text of an `onDate`, whatever the flag. */
  predicate OffsetReadable(children: map<string, SubDate>) {
    "onDate" in children ==> HasText(children["onDate"], "offset")
  }

  function Offset(children: map<string, SubDate>): string
    requires OffsetReadable(children) && "onDate" in children
  {
    PartText(children["onDate"], "offset")
  }

  /**
   * The sub-date that feeds a slot: `textDateWhen` takes `onDate` only when it
   * has no offset; `textDateFrom` takes `fromDate`, else `onDate` unless it is
   * "before" a day; `textDateTo` takes `toDate`, else `onDate` unless it is
   * "after" a day.
   */
  function Task(children: map<string, SubDate>, slot: Slot): (r: Option<SubDate>)
    requires OffsetReadable(children)
    ensures slot == Chron ==>
              (r.Some? <==> "onDate" in children && Offset(children) == "")
    ensures slot == ChronMin ==>
              (r.Some? <==> "fromDate" in children || ("onDate" in children && Offset(children) != "before"))
    ensures slot == ChronMax ==>
              (r.Some? <==> "toDate" in children || ("onDate" in children && Offset(children) != "after"))
    ensures slot == ChronMin && "fromDate" in children ==> r == Some(children["fromDate"])
    ensures slot == ChronMax && "toDate" in children ==> r == Some(children["toDate"])
    ensures r.Some? && !(slot == ChronMin && "fromDate" in children) && !(slot == ChronMax && "toDate" in children) ==>
              r == Some(children["onDate"])
  {
    match slot
    case Chron =>
      if "onDate" in children && Offset(children) == "" then Some(children["onDate"]) else None
    case ChronMin =>
      if "fromDate" in children then Some(children["fromDate"])
      else if "onDate" in children && Offset(children) != "before" then Some(children["onDate"])
      else None
    case ChronMax =>
      if "toDate" in children then Some(children["toDate"])
      else if "onDate" in children && Offset(children) != "after" then Some(children["onDate"])
      else None
  }

  /** An exact single date bounds itself on both sides. */
  lemma {:induction false} WhenImpliesBounds(children: map<string, SubDate>)
    requires OffsetReadable(children)
    requires Task(children, Chron).Some?
    ensures Task(children, ChronMin).Some? && Task(children, ChronMax).Some?
  {
    assert Offset(children) == "";
  }

  /** A complete date always has both bounds. */
  lemma CompleteHasBounds(children: map<string, SubDate>)
    requires OffsetReadable(children)
    requires "fromDate" in children && "toDate" in children
    ensures Task(children, ChronMin) == Some(children["fromDate"])
    ensures Task(children, ChronMax) == Some(children["toDate"])
  {
  }

  /** What `HgvFuzzy.getChron` is given: four texts (each possibly nil), three extents and the slot. */
  datatype ChronInput = ChronInput(century: Option<string>, year: Option<string>, month: Option<string>,
                                   day: Option<string>, centuryExtent: Option<string>,
                                   yearExtent: Option<string>, monthExtent: Option<string>)

  /**
   * What the call of `getChron` reads from a sub-date: the century, year, month
   * and day elements, and the attribute hashes of the first three.
   */
  predicate ChronReadable(sub: SubDate) {
    && "century" in sub.children && "year" in sub.children && "month" in sub.children && "day" in sub.children
    && sub.children["century"].attributes.Some? && sub.children["year"].attributes.Some?
    && sub.children["month"].attributes.Some?
  }

  /** Under the flag every sub-date that feeds a slot is read by `getChron`. */
  predicate SlotsReadable(children: map<string, SubDate>)
    requires OffsetReadable(children)
  {
    forall slot :: Task(children, slot).Some? ==> ChronReadable(Task(children, slot).value)
  }

  /** What completing a date reads: the onDate offset always, and the fed sub-dates under the flag. */
  predicate CompletionReadable(date: TextDate, master: bool) {
    OffsetReadable(date.children) && (master ==> SlotsReadable(date.children))
  }

  predicate TextDatesCompletionReadable(dates: map<string, TextDate>, master: bool) {
    forall k :: k in dates ==> CompletionReadable(dates[k], master)
  }

  function ChronInputOf(sub: SubDate): ChronInput
    requires ChronReadable(sub)
  {
    ChronInput(sub.children["century"].value, sub.children["year"].value, sub.children["month"].value,
               sub.children["day"].value,
               Lookup(sub.children["century"].attributes.value, "extent"),
               Lookup(sub.children["year"].attributes.value, "extent"),
               Lookup(sub.children["month"].attributes.value, "extent"))
  }

  /** The value a slot receives: `getChron` of its sub-date, or nil when no sub-date feeds it. */
  function SlotValue(children: map<string, SubDate>, slot: Slot,
                     getChron: (ChronInput, Slot) -> Option<string>): Option<string>
    requires OffsetReadable(children) && SlotsReadable(children)
  {
    var task := Task(children, slot);
    if task.Some? then getChron(ChronInputOf(task.value), slot) else None
  }

  /** The attributes after the first `n` slots of `Slots` have been written, in order. */
  function FillSlots(attributes: map<string, Option<string>>, children: map<string, SubDate>, n: nat,
                     getChron: (ChronInput, Slot) -> Option<string>): map<string, Option<string>>
    requires OffsetReadable(children) && SlotsReadable(children)
    requires n <= |Slots|
  {
    if n == 0 then attributes
    else FillSlots(attributes, children, n - 1, getChron)[SlotAttribute(Slots[n - 1]) := SlotValue(children, Slots[n - 1], getChron)]
  }

  /** Filling writes each of the three slot attributes with its slot's value and leaves every other attribute. */
  lemma FillSlotsWrites(attributes: map<string, Option<string>>, children: map<string, SubDate>,
                        getChron: (ChronInput, Slot) -> Option<string>)
    requires OffsetReadable(children) && SlotsReadable(children)
    ensures var r := FillSlots(attributes, children, |Slots|, getChron);
            && r.Keys == attributes.Keys + {"textDateWhen", "textDateFrom", "textDateTo"}
            && r["textDateWhen"] == SlotValue(children, Chron, getChron)
            && r["textDateFrom"] == SlotValue(children, ChronMin, getChron)
            && r["textDateTo"] == SlotValue(children, ChronMax, getChron)
            && forall k :: k in attributes && k !in {"textDateWhen", "textDateFrom", "textDateTo"} ==> r[k] == attributes[k]
  {
    var r1 := FillSlots(attributes, children, 1, getChron);
    var r2 := FillSlots(attributes, children, 2, getChron);
    assert FillSlots(attributes, children, 0, getChron) == attributes;
    assert r1 == attributes["textDateWhen" := SlotValue(children, Chron, getChron)];
    assert r2 == r1["textDateFrom" := SlotValue(children, ChronMin, getChron)];
  }

  /** The two attributes that hold a year: notBefore and notAfter. */
  const YearAttributes: seq<string> := ["textDateFrom", "textDateTo"]

  /** A string of ten or more characters loses its last six (a full date cut to its year); others stay. */
  function TruncateYear(v: Option<string>): (r: Option<string>)
    ensures v.Some? && |v.value| >= 10 ==> r.Some? && r.value == v.value[..|v.value| - 6]
    ensures !(v.Some? && |v.value| >= 10) ==> r == v
  {
    if v.Some? && |v.value| >= 10 then Some(v.value[..|v.value| - 6]) else v
  }

  /** The attributes after the attributes in `names` have been truncated. */
  function TruncateYears(attributes: map<string, Option<string>>, names: seq<string>): (r: map<string, Option<string>>)
    ensures r.Keys == attributes.Keys
    ensures forall k :: k in attributes && k in names ==> r[k] == TruncateYear(attributes[k])
    ensures forall k :: k in attributes && k !in names ==> r[k] == attributes[k]
    decreases |names|
  {
    if names == [] then attributes
    else
      var last := names[|names| - 1];
      var front := TruncateYears(attributes, names[..|names| - 1]);
      assert forall k :: k in names ==> k == last || k in names[..|names| - 1];
      if last in front && last !in names[..|names| - 1] then front[last := TruncateYear(front[last])] else front
  }

  /** The text of a date as `HgvFormat.formatDate` renders it, from the flattened sub-dates. */
  function FormattedValue(date: TextDate, format: (map<string, Packed>, Option<map<string, Packed>>) -> string): Option<string> {
    if "onDate" in date.children then Some(format(PackedDate(date.children["onDate"]), None))
    else if "fromDate" in date.children && "toDate" in date.children then
      Some(format(PackedDate(date.children["fromDate"]), Some(PackedDate(date.children["toDate"]))))
    else date.value
  }

  /**
   * A text date after completion: under the date-master flag its slots are
   * filled and its text formatted; in every case its children are cleared and
   * its notBefore/notAfter cut to a year.
   */
  function CompletedDate(date: TextDate, master: bool, getChron: (ChronInput, Slot) -> Option<string>,
                         format: (map<string, Packed>, Option<map<string, Packed>>) -> string): (r: TextDate)
    requires CompletionReadable(date, master)
    ensures r.children == map[]
    ensures !master ==> r.value == date.value && r.attributes.Keys == date.attributes.Keys
    ensures master && Complete(date) ==> r.value.Some?
  {
    var filled := if master then FillSlots(date.attributes, date.children, |Slots|, getChron) else date.attributes;
    TextDate(if master then FormattedValue(date, format) else date.value, map[], TruncateYears(filled, YearAttributes))
  }

  /** An entry of a flattened sub-date. */
  datatype Packed = Plain(text: string) | Flat(fields: map<string, string>) | Node(element: Element)

  /**
   * `packDate`: the sub-date's children merged with its attributes, the
   * attributes winning on a shared key; an `offset` child with a text becomes
   * that text, and any other child with both a text and attributes becomes
   * its attributes plus `value`.
   */
  function PackedDate(sub: SubDate): (r: map<string, Packed>)
    ensures r.Keys == sub.children.Keys + sub.attributes.Keys
    ensures forall k :: k in sub.attributes ==> r[k] == Plain(sub.attributes[k])
    ensures forall k :: k in sub.children && k !in sub.attributes && k == "offset" && sub.children[k].value.Some? ==>
              r[k] == Plain(sub.children[k].value.value)
    ensures forall k :: k in sub.children && k !in sub.attributes && k != "offset" &&
                        sub.children[k].value.Some? && sub.children[k].attributes.Some? ==>
              r[k] == Flat(sub.children[k].attributes.value["value" := sub.children[k].value.value])
    ensures forall k :: k in sub.children && k !in sub.attributes && sub.children[k].value.None? ==>
              r[k] == Node(sub.children[k])
    ensures forall k :: k in sub.children && k !in sub.attributes && k != "offset" &&
                        sub.children[k].attributes.None? ==>
              r[k] == Node(sub.children[k])
  {
    map k | k in sub.children.Keys + sub.attributes.Keys :: PackValue(sub, k)
  }

  function PackValue(sub: SubDate, k: string): Packed
    requires k in sub.children || k in sub.attributes
  {
    if k in sub.attributes then Plain(sub.attributes[k]) else PackEntry(k, sub.children[k])
  }

  /**
   * Ruby tests whether the element has a `value` key; form parameters never
   * carry that key with a nil value, so the key is present exactly when the
   * value is.
   */
  function PackEntry(k: string, e: Element): Packed {
    if e.value.Some? && k == "offset" then Plain(e.value.value)
    else if e.value.Some? && e.attributes.Some? then Flat(e.attributes.value["value" := e.value.value])
    else Node(e)
  }

  /**
   * Under the date-master flag a completed date carries the slot values,
   * notBefore and notAfter cut to a year, and keeps its other attributes.
   */
  lemma {:induction false} CompletedAttributes(date: TextDate, getChron: (ChronInput, Slot) -> Option<string>,
                                               format: (map<string, Packed>, Option<map<string, Packed>>) -> string)
    requires CompletionReadable(date, true)
    ensures var r := CompletedDate(date, true, getChron, format).attributes;
            && r.Keys == date.attributes.Keys + {"textDateWhen", "textDateFrom", "textDateTo"}
            && r["textDateWhen"] == SlotValue(date.children, Chron, getChron)
            && r["textDateFrom"] == TruncateYear(SlotValue(date.children, ChronMin, getChron))
            && r["textDateTo"] == TruncateYear(SlotValue(date.children, ChronMax, getChron))
            && forall k :: k in date.attributes && k !in {"textDateWhen", "textDateFrom", "textDateTo"} ==>
                 r[k] == date.attributes[k]
  {
    FillSlotsWrites(date.attributes, date.children, getChron);
  }

  /** Without the flag only notBefore and notAfter change, each cut to a year. */
  lemma {:induction false} UnflaggedAttributes(date: TextDate, getChron: (ChronInput, Slot) -> Option<string>,
                                               format: (map<string, Packed>, Option<map<string, Packed>>) -> string)
    requires CompletionReadable(date, false)
    ensures var r := CompletedDate(date, false, getChron, format).attributes;
            && r.Keys == date.attributes.Keys
            && (forall k :: k in date.attributes && k in YearAttributes ==> r[k] == TruncateYear(date.attributes[k]))
            && (forall k :: k in date.attributes && k !in YearAttributes ==> r[k] == date.attributes[k])
  {
  }

  /** A cut date keeps its first characters: a `YYYY-MM-DD` beginning loses its month and day. */
  lemma TruncateYearOfFullDate(v: string)
    requires |v| == 10
    ensures TruncateYear(Some(v)) == Some(v[..4])
  {
  }

  /** The text dates after pruning and completion under the flag: every one has a text and no children. */
  lemma {:induction false} PruneThenCompleteGivesText(dates: map<string, TextDate>,
                                                       getChron: (ChronInput, Slot) -> Option<string>,
                                                       format: (map<string, Packed>, Option<map<string, Packed>>) -> string)
    requires TextDatesPruneReadable(dates) && TextDatesCompletionReadable(PrunedTextDates(dates), true)
    ensures var pruned := PrunedTextDates(dates);
            forall k :: k in pruned ==>
              && CompletedDate(pruned[k], true, getChron, format).value.Some?
              && CompletedDate(pruned[k], true, getChron, format).children == map[]
  {
    var pruned := PrunedTextDates(dates);
    forall k | k in pruned
      ensures CompletedDate(pruned[k], true, getChron, format).value.Some?
    {
      assert Complete(pruned[k]);
    }
  }
}
