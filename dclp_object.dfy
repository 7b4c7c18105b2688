/** Object data of the DCLP metadata editor: the collections holding a papyrus. */
module DclpObject {
  import opened Common

  /** `Collection`: the main collection followed by the further collections, in that order. */
  class Collection {
    var list: seq<string>

    constructor (collection: Option<string>, collectionList: Option<seq<string>>)
      ensures list == (if collection.Some? then [collection.value] else [])
                      + (if collectionList.Some? then collectionList.value else [])
      ensures forall c :: c in list <==> collection == Some(c) || (collectionList.Some? && c in collectionList.value)
      ensures collection.Some? ==> list[0] == collection.value
    {
      var l := [];
      if collection.Some? {
        l := l + [collection.value];
      }
      if collectionList.Some? {
        l := l + collectionList.value;
      }
      list := l;
    }
  }
}
