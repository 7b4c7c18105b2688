/**
 * The HGV meta identifier controller: before an update it prunes and
 * completes the date parameters of the edit form, then writes the form to
 * EpiDoc, leaves a flash notice and records the edit's comment.
 */
module HgvMetaIdentifiersController {
  import opened Common
  import opened Text
  import opened Comments
  import opened HgvDates

  /** The children of a date with its empty `onDate`, `fromDate` and `toDate` deleted, one kind after another. */
  method PruneSubDatesOf(date: TextDate) returns (pruned: TextDate)
    requires ChildrenPruneReadable(date.children)
    ensures pruned == PruneSubDates(date)
  {
    var children := date.children;
    for i := 0 to |SubDateKinds|
      invariant forall k :: k in children ==> k in date.children && children[k] == date.children[k]
      invariant forall k :: k in date.children && k !in SubDateKinds[..i] ==> k in children
      invariant forall j :: 0 <= j < i ==>
                  (SubDateKinds[j] in children <==>
                   SubDateKinds[j] in date.children && !EmptySubDate(date.children[SubDateKinds[j]]))
    {
      var kind := SubDateKinds[i];
      if kind in children && EmptySubDate(children[kind]) {
        children := children - {kind};
      }
    }
    assert children == PrunedChildren(date.children);
    pruned := date.(children := children);
  }

  /** The text dates with the empty sub-dates deleted and then every incomplete date. */
  method PruneTextDates(dates: map<string, TextDate>) returns (r: map<string, TextDate>)
    requires TextDatesPruneReadable(dates)
    ensures r == PrunedTextDates(dates)
  {
    r := map[];
    var todo := dates.Keys;
    while todo != {}
      invariant todo <= dates.Keys
      invariant forall k :: k in r <==> k in dates && k !in todo && Complete(PruneSubDates(dates[k]))
      invariant forall k :: k in r ==> r[k] == PruneSubDates(dates[k])
      decreases todo
    {
      var k :| k in todo;
      var date := PruneSubDatesOf(dates[k]);
      if Complete(date) {
        r := r[k := date];
      }
      todo := todo - {k};
    }
  }

  /** The certainties of a mentioned date, less those whose relation is present and empty. */
  method PruneCertainties(certainties: map<string, Certainty>) returns (r: map<string, Certainty>)
    ensures r == KeptCertainties(certainties)
  {
    r := certainties;
    var todo := certainties.Keys;
    while todo != {}
      invariant todo <= certainties.Keys
      invariant forall k :: k in r <==> k in certainties && (k in todo || !BlankRelation(certainties[k]))
      invariant forall k :: k in r ==> r[k] == certainties[k]
      decreases todo
    {
      var k :| k in todo;
      if BlankRelation(certainties[k]) {
        r := r - {k};
      }
      todo := todo - {k};
    }
  }

  function PrunedMentionedDates(dates: map<string, MentionedDate>): (r: map<string, MentionedDate>)
    ensures r.Keys == dates.Keys
    ensures forall k :: k in r ==> r[k] == PruneMentionedDate(dates[k])
  {
    map k | k in dates :: PruneMentionedDate(dates[k])
  }

  method PruneMentionedDates(dates: map<string, MentionedDate>) returns (r: map<string, MentionedDate>)
    ensures r == PrunedMentionedDates(dates)
  {
    r := dates;
    var todo := dates.Keys;
    while todo != {}
      invariant todo <= dates.Keys
      invariant r.Keys == dates.Keys
      invariant forall k :: k in r ==> r[k] == if k in todo then dates[k] else PruneMentionedDate(dates[k])
      decreases todo
    {
      var k :| k in todo;
      var date := dates[k];
      if date.certainties.Some? {
        var kept := PruneCertainties(date.certainties.value);
        r := r[k := MentionedDate(Some(kept))];
      }
      todo := todo - {k};
    }
  }

  /** The text dates after completion. */
  function CompletedTextDates(dates: map<string, TextDate>, master: bool, getChron: (ChronInput, Slot) -> Option<string>,
                              format: (map<string, Packed>, Option<map<string, Packed>>) -> string): (r: map<string, TextDate>)
    requires TextDatesCompletionReadable(dates, master)
    ensures r.Keys == dates.Keys
    ensures forall k :: k in r ==> r[k].children == map[]
  {
    map k | k in dates :: CompletedDate(dates[k], master, getChron, format)
  }

  /** `tasks.each_pair`: each slot attribute takes `getChron` of its sub-date, or nil. */
  method FillSlotAttributes(date: TextDate, getChron: (ChronInput, Slot) -> Option<string>)
    returns (attributes: map<string, Option<string>>)
    requires CompletionReadable(date, true)
    ensures attributes == FillSlots(date.attributes, date.children, |Slots|, getChron)
  {
    attributes := date.attributes;
    for i := 0 to |Slots|
      invariant attributes == FillSlots(date.attributes, date.children, i, getChron)
    {
      var slot := Slots[i];
      var task := Task(date.children, slot);
      if task.Some? {
        attributes := attributes[SlotAttribute(slot) := getChron(ChronInputOf(task.value), slot)];
      } else {
        attributes := attributes[SlotAttribute(slot) := None];
      }
    }
  }

  /** The HGV formatted text of a date: of its `onDate`, else of its `fromDate`–`toDate` span. */
  method FormatDate(date: TextDate, format: (map<string, Packed>, Option<map<string, Packed>>) -> string)
    returns (value: Option<string>)
    ensures value == FormattedValue(date, format)
  {
    value := date.value;
    if "onDate" in date.children {
      var packed := PackDate(date.children["onDate"]);
      value := Some(format(packed, None));
    } else if "fromDate" in date.children && "toDate" in date.children {
      var from := PackDate(date.children["fromDate"]);
      var to := PackDate(date.children["toDate"]);
      value := Some(format(from, Some(to)));
    }
  }

  /** notBefore and notAfter, when they are strings of ten or more characters, lose their last six. */
  method TruncateYearAttributes(filled: map<string, Option<string>>) returns (attributes: map<string, Option<string>>)
    ensures attributes == TruncateYears(filled, YearAttributes)
  {
    attributes := filled;
    for i := 0 to |YearAttributes|
      invariant attributes == TruncateYears(filled, YearAttributes[..i])
    {
      var name := YearAttributes[i];
      assert YearAttributes[..i + 1][..i] == YearAttributes[..i];
      if name in attributes && attributes[name].Some? && |attributes[name].value| >= 10 {
        attributes := attributes[name := Some(attributes[name].value[..|attributes[name].value| - 6])];
      }
    }
    assert YearAttributes[..|YearAttributes|] == YearAttributes;
  }

  /** One text date completed: slots filled and text formatted under the flag, children cleared, years cut. */
  method CompleteTextDate(date: TextDate, master: bool, getChron: (ChronInput, Slot) -> Option<string>,
                          format: (map<string, Packed>, Option<map<string, Packed>>) -> string)
    returns (r: TextDate)
    requires CompletionReadable(date, master)
    ensures r == CompletedDate(date, master, getChron, format)
  {
    var attributes := date.attributes;
    var value := date.value;
    if master {
      attributes := FillSlotAttributes(date, getChron);
      value := FormatDate(date, format);
    }
    attributes := TruncateYearAttributes(attributes);
    r := TextDate(value, map[], attributes);
  }

  /** Every text date completed. */
  method CompleteTextDates(dates: map<string, TextDate>, master: bool, getChron: (ChronInput, Slot) -> Option<string>,
                           format: (map<string, Packed>, Option<map<string, Packed>>) -> string)
    returns (r: map<string, TextDate>)
    requires TextDatesCompletionReadable(dates, master)
    ensures r == CompletedTextDates(dates, master, getChron, format)
  {
    r := map[];
    var todo := dates.Keys;
    while todo != {}
      invariant todo <= dates.Keys
      invariant r.Keys == dates.Keys - todo
      invariant forall k :: k in r ==> r[k] == CompletedDate(dates[k], master, getChron, format)
      decreases todo
    {
      var k :| k in todo;
      var date := CompleteTextDate(dates[k], master, getChron, format);
      r := r[k := date];
      todo := todo - {k};
    }
  }

  /** `packDate`: the sub-date flattened entry by entry. */
  method PackDate(sub: SubDate) returns (packed: map<string, Packed>)
    ensures packed == PackedDate(sub)
  {
    packed := map k | k in sub.children.Keys + sub.attributes.Keys ::
                if k in sub.attributes then Plain(sub.attributes[k]) else Node(sub.children[k]);
    var todo := packed.Keys;
    while todo != {}
      invariant packed.Keys == sub.children.Keys + sub.attributes.Keys
      invariant todo <= packed.Keys
      invariant forall k :: k in packed && k !in todo ==> packed[k] == PackValue(sub, k)
      invariant forall k :: k in todo ==>
                  packed[k] == if k in sub.attributes then Plain(sub.attributes[k]) else Node(sub.children[k])
      decreases todo
    {
      var k :| k in todo;
      var v := packed[k];
      if v.Node? && v.element.value.Some? {
        if k == "offset" {
          packed := packed["offset" := Plain(v.element.value.value)];
        } else if v.element.attributes.Some? {
          packed := packed[k := Flat(v.element.attributes.value["value" := v.element.value.value])];
        }
      }
      todo := todo - {k};
    }
  }

  const UpdatedNotice: string := "File updated."

  /** `generate_flash_message`: the notice, with a link to the publication while it can still be submitted. */
  function FlashNotice(status: string, publicationUrl: string): (r: string)
    ensures StartsWith(r, UpdatedNotice)
    ensures r != UpdatedNotice <==> status == "new" || status == "editing"
    ensures r != UpdatedNotice ==> exists i :: OccursAt(r, publicationUrl, i)
  {
    if status == "new" || status == "editing" then
      var link := " Go to the <a href='" + publicationUrl + "'>publication overview</a> if you would like to submit.";
      var r := UpdatedNotice + link;
      assert r[..|UpdatedNotice|] == UpdatedNotice;
      assert OccursAt(r, publicationUrl, |UpdatedNotice| + 20) by {
        assert r[|UpdatedNotice| + 20..|UpdatedNotice| + 20 + |publicationUrl|] == publicationUrl;
      }
      r
    else UpdatedNotice
  }

  /**
   * The request state the controller works on: the date parameters of the
   * form (whether the form was sent at all, its `textDate` and
   * `mentionedDate` hashes and the date-master flag), the flash notice and
   * the comments table.
   */
  class HgvUpdate {
    var hasForm: bool
    var textDates: Option<map<string, TextDate>>
    var mentionedDates: Option<map<string, MentionedDate>>
    var master: Option<string>
    var notice: Option<string>
    const log: CommentLog

    constructor (hasForm: bool, textDates: Option<map<string, TextDate>>,
                 mentionedDates: Option<map<string, MentionedDate>>, master: Option<string>, log: CommentLog)
      ensures this.hasForm == hasForm && this.textDates == textDates && this.mentionedDates == mentionedDates
      ensures this.master == master && this.log == log && notice == None
    {
      this.hasForm := hasForm;
      this.textDates := textDates;
      this.mentionedDates := mentionedDates;
      this.master := master;
      this.log := log;
      notice := None;
    }

    predicate DateMaster()
      reads this
    {
      master == Some("yes")
    }

    /**
     * `prune_params`: under the date-master flag the text dates are pruned
     * (a form without `textDate`, or with a sub-date whose tested texts are
     * missing, then raises, so it is excluded); the mentioned dates lose their
     * blank-relation certainties whatever the flag.
     */
    method PruneParams()
      requires hasForm && DateMaster() ==> textDates.Some? && TextDatesPruneReadable(textDates.value)
      modifies this
      ensures hasForm == old(hasForm) && master == old(master) && notice == old(notice)
      ensures hasForm && DateMaster() ==> textDates == Some(PrunedTextDates(old(textDates).value))
      ensures !(hasForm && DateMaster()) ==> textDates == old(textDates)
      ensures hasForm && old(mentionedDates).Some? ==> mentionedDates == Some(PrunedMentionedDates(old(mentionedDates).value))
      ensures !hasForm || old(mentionedDates).None? ==> mentionedDates == old(mentionedDates)
    {
      if hasForm {
        if DateMaster() {
          var pruned := PruneTextDates(textDates.value);
          textDates := Some(pruned);
        }
        if mentionedDates.Some? {
          var pruned := PruneMentionedDates(mentionedDates.value);
          mentionedDates := Some(pruned);
        }
      }
    }

    /** `complement_params`: every text date is completed, whatever the flag. */
    method ComplementParams(getChron: (ChronInput, Slot) -> Option<string>,
                            format: (map<string, Packed>, Option<map<string, Packed>>) -> string)
      requires hasForm && textDates.Some? ==> TextDatesCompletionReadable(textDates.value, DateMaster())
      modifies this
      ensures hasForm == old(hasForm) && master == old(master) && notice == old(notice)
      ensures hasForm && old(textDates).Some? ==>
                textDates == Some(CompletedTextDates(old(textDates).value, DateMaster(), getChron, format))
      ensures !hasForm || old(textDates).None? ==> textDates == old(textDates)
      ensures mentionedDates == old(mentionedDates)
    {
      if hasForm && textDates.Some? {
        var completed := CompleteTextDates(textDates.value, DateMaster(), getChron, format);
        textDates := Some(completed);
      }
    }

    /**
     * `update`, with its filters: the parameters are pruned and completed,
     * `set_epidoc` (the parameter `setEpidoc`) writes them and yields the
     * commit id, the notice is set and the comment saved under that id.
     */
    method Update(getChron: (ChronInput, Slot) -> Option<string>,
                  format: (map<string, Packed>, Option<map<string, Packed>>) -> string,
                  setEpidoc: (Option<map<string, TextDate>>, Option<map<string, MentionedDate>>, Option<string>) -> string,
                  comment: Option<string>, status: string, publicationUrl: string,
                  userId: nat, identifierId: nat, publicationId: nat)
      requires hasForm && DateMaster() ==>
                 && textDates.Some? && TextDatesPruneReadable(textDates.value)
                 && TextDatesCompletionReadable(PrunedTextDates(textDates.value), true)
      requires hasForm && !DateMaster() && textDates.Some? ==> TextDatesCompletionReadable(textDates.value, false)
      modifies this, log
      ensures hasForm == old(hasForm) && master == old(master)
      ensures hasForm && DateMaster() ==>
                textDates == Some(CompletedTextDates(PrunedTextDates(old(textDates).value), true, getChron, format))
      ensures hasForm && !DateMaster() && old(textDates).Some? ==>
                textDates == Some(CompletedTextDates(old(textDates).value, false, getChron, format))
      ensures !hasForm || old(textDates).None? ==> textDates == old(textDates)
      ensures hasForm && old(mentionedDates).Some? ==>
                mentionedDates == Some(PrunedMentionedDates(old(mentionedDates).value))
      ensures !hasForm || old(mentionedDates).None? ==> mentionedDates == old(mentionedDates)
      ensures hasForm && DateMaster() ==>
                forall k :: k in textDates.value ==> textDates.value[k].value.Some? && textDates.value[k].children == map[]
      ensures notice == Some(FlashNotice(status, publicationUrl))
      ensures var c := CommitComment(comment, setEpidoc(textDates, mentionedDates, comment), userId, identifierId, publicationId);
              log.comments == old(log.comments) + (if c.Some? then [c.value] else [])
    {
      PruneParams();
      ghost var pruned := textDates;
      ComplementParams(getChron, format);
      if hasForm && DateMaster() {
        PruneThenCompleteGivesText(old(textDates).value, getChron, format);
        assert pruned == Some(PrunedTextDates(old(textDates).value));
      }
      var commitSha := setEpidoc(textDates, mentionedDates, comment);
      notice := Some(FlashNotice(status, publicationUrl));
      log.SaveCommitComment(comment, commitSha, userId, identifierId, publicationId);
    }
  }
}
