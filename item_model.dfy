/** The item model of `backend/models/Item.js`: the stored record, the
    schema's required fields, and a document object whose `save` runs the
    required-field validation and then the `pre('save')` hook that stamps
    `updatedAt`. `Date.now()` is the parameter `now`. */
module ItemModel {
  import opened Wrappers

  /** A stored item. `description` is optional; `tags` is ordered and may
      be empty; `owner` is the owning user's id. */
  datatype Item = Item(id: string, title: string, description: Option<string>, owner: string,
                       tags: seq<string>, createdAt: int, updatedAt: int)

  /** The schema's `required: true` fields, `title` and `owner`, are set
      (an empty string fails Mongoose's required check for strings). */
  predicate Conforms(item: Item)
    ensures Conforms(item) ==> |item.title| >= 1 && |item.owner| >= 1
  {
    item.title != "" && item.owner != ""
  }

  /** Only `title` and `owner` are required: the description, the tags and
      the timestamps never decide whether a document saves. */
  lemma ConformsIgnoresOptionalFields(item: Item, description: Option<string>, tags: seq<string>,
                                      createdAt: int, updatedAt: int)
    ensures Conforms(item.(description := description, tags := tags, createdAt := createdAt,
                           updatedAt := updatedAt)) == Conforms(item)
  {
  }

  /** A loaded or newly built Mongoose document. */
  class ItemDocument {
    var id: string
    var title: string
    var description: Option<string>
    var owner: string
    var tags: seq<string>
    var createdAt: int
    var updatedAt: int

    /** The record the document holds. */
    function Value(): Item
      reads this
    {
      Item(id, title, description, owner, tags, createdAt, updatedAt)
    }

    /** A new document: tags default to the empty array and both
        timestamps default to the current time. */
    constructor New(id: string, title: string, description: Option<string>, owner: string,
                    tags: Option<seq<string>>, now: int)
      ensures Value() == Item(id, title, description, owner, tags.GetOr([]), now, now)
    {
      this.id, this.title, this.description, this.owner := id, title, description, owner;
      this.tags := tags.GetOr([]);
      createdAt, updatedAt := now, now;
    }

    /** A document loaded from the collection (`findById`). */
    constructor Load(item: Item)
      ensures Value() == item
    {
      id, title, description, owner := item.id, item.title, item.description, item.owner;
      tags, createdAt, updatedAt := item.tags, item.createdAt, item.updatedAt;
    }

    /** `doc.save()`: a document missing a required field is refused and
        left as it was; otherwise the hook sets `updatedAt` to the save
        time and no other field changes. */
    method Save(now: int) returns (ok: bool)
      modifies this
      ensures ok == Conforms(old(Value()))
      ensures ok ==> Value() == old(Value()).(updatedAt := now)
      ensures !ok ==> Value() == old(Value())
    {
      ok := title != "" && owner != "";
      if ok {
        updatedAt := now;
      }
    }
  }
}
