/**
 * The MongoDB collection `colors` as the handler uses it: a sequence of
 * `{hex, color}` documents, searched by `hex` and appended to by `insert_one`.
 * Connection set-up and the driver are not part of this model.
 */
module Store {
  import opened Wrappers

  /** One document: the image fingerprint and the colour computed for it. */
  datatype Img = Img(hex: string, color: string)

  /** The index of the first document whose `hex` matches; `None` when none does. */
  function FirstMatch(records: seq<Img>, hex: string): (i: Option<nat>)
    ensures i.Some? ==> i.value < |records| && records[i.value].hex == hex
    ensures i.Some? ==> forall j | 0 <= j < i.value :: records[j].hex != hex
    ensures i.None? ==> forall j | 0 <= j < |records| :: records[j].hex != hex
  {
    if records == [] then None
    else if records[0].hex == hex then Some(0)
    else
      match FirstMatch(records[1..], hex)
      case None => None
      case Some(k) => Some(k + 1)
  }

  /** The colour a search by fingerprint finds: that of the first matching document. */
  function Lookup(records: seq<Img>, hex: string): (color: Option<string>)
    ensures color.None? <==> forall j | 0 <= j < |records| :: records[j].hex != hex
    ensures color.Some? ==> Img(hex, color.value) in records
  {
    match FirstMatch(records, hex)
    case None => None
    case Some(i) => Some(records[i].color)
  }

  /**
   * Appending a document changes no earlier answer; it answers only for its
   * own fingerprint, and only if that fingerprint was not stored before.
   */
  lemma LookupAppend(records: seq<Img>, doc: Img, hex: string)
    ensures Lookup(records + [doc], hex) ==
      if Lookup(records, hex).Some? then Lookup(records, hex)
      else if doc.hex == hex then Some(doc.color)
      else None
  {
    var all := records + [doc];
    assert forall j | 0 <= j < |records| :: all[j] == records[j];
    match FirstMatch(records, hex)
    case Some(i) =>
      assert FirstMatch(all, hex) == Some(i) by {
        FirstMatchUnique(all, hex, i);
      }
    case None =>
      if doc.hex == hex {
        FirstMatchUnique(all, hex, |records|);
      }
  }

  /** The first match is the only index that is a match with no match before it. */
  lemma FirstMatchUnique(records: seq<Img>, hex: string, i: nat)
    requires i < |records| && records[i].hex == hex
    requires forall j | 0 <= j < i :: records[j].hex != hex
    ensures FirstMatch(records, hex) == Some(i)
  {
    var m := FirstMatch(records, hex);
    assert m.Some?;
  }

  /** The collection, updated in place by `insert_one`. */
  class ColorStore {
    var records: seq<Img>

    constructor (initial: seq<Img>)
      ensures records == initial
    {
      records := initial;
    }

    /** `collection.find(doc! {"hex": hex})`, reading the first result. */
    function Find(hex: string): (color: Option<string>)
      reads this
      ensures color.None? <==> forall j | 0 <= j < |records| :: records[j].hex != hex
      ensures color.Some? ==> Img(hex, color.value) in records
    {
      Lookup(records, hex)
    }

    /** `collection.insert_one(&doc)`: the document is appended, nothing else changes. */
    method InsertOne(doc: Img)
      modifies this
      ensures records == old(records) + [doc]
    {
      records := records + [doc];
    }
  }
}
