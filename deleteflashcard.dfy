/** The card-deletion handler of api/deleteFlashcard.js:9-32: validate the
    request, pick the collection from `type`, look the deck up, remove one card
    with `cards.splice(index, 1)` (ECMA-262 section 23.1.3.31) and write the
    list back.  The Firestore database is a map from (collection, id) to the
    document's fields. */
module DeleteFlashcard {
  import opened Json

  /** `db.collection(collection).doc(id)`. */
  datatype DocRef = DocRef(collection: string, id: string)

  /** The fields of a stored document. */
  type Fields = map<string, Json>

  /** Lines 15-16: `type === "manual"` selects the manual decks; any other
      value, or none, selects the generated ones. */
  function CollectionFor(kind: Option<string>): (c: string)
    ensures c == "flashcards" <==> kind == Some("manual")
    ensures c == "flashcards" || c == "flashcardDecks"
  {
    if kind == Some("manual") then "flashcards" else "flashcardDecks"
  }

  /** The position `splice(index, 1)` starts at: a negative index counts from
      the end and stops at 0, a large one stops at the length. */
  function SpliceStart(len: nat, index: int): (start: nat)
    ensures start <= len
    ensures 0 <= index <= len ==> start == index
    ensures index > len ==> start == len
    ensures index < 0 ==> start == if len + index < 0 then 0 else len + index
  {
    if index < 0 then (if len + index < 0 then 0 else len + index)
    else if index < len then index
    else len
  }

  /** The list left by `cards.splice(index, 1)`: the element at the start
      position is removed when there is one. */
  function Splice(cards: seq<Json>, index: int): seq<Json> {
    var start := SpliceStart(|cards|, index);
    if start < |cards| then cards[..start] + cards[start + 1..] else cards
  }

  /** An index inside the list removes exactly that card and keeps the others
      in their order. */
  lemma {:induction false} SpliceInRange(cards: seq<Json>, i: int)
    requires 0 <= i < |cards|
    ensures |Splice(cards, i)| == |cards| - 1
    ensures forall k :: 0 <= k < i ==> Splice(cards, i)[k] == cards[k]
    ensures forall k :: i <= k < |cards| - 1 ==> Splice(cards, i)[k] == cards[k + 1]
    ensures multiset(Splice(cards, i)) + multiset{cards[i]} == multiset(cards)
  {
    var r := Splice(cards, i);
    assert r == cards[..i] + cards[i + 1..];
    assert cards == cards[..i] + [cards[i]] + cards[i + 1..];
  }

  /** An index at or past the end removes nothing. */
  lemma {:induction false} SpliceOutOfRange(cards: seq<Json>, i: int)
    requires i >= |cards|
    ensures Splice(cards, i) == cards
  {
  }

  /** A negative index removes the card at `len + index`, or the first one
      when that is negative; nothing is removed from an empty list. */
  lemma {:induction false} SpliceNegative(cards: seq<Json>, i: int)
    requires i < 0
    ensures cards == [] ==> Splice(cards, i) == []
    ensures cards != [] ==>
      var p := if |cards| + i < 0 then 0 else |cards| + i;
      p < |cards| && Splice(cards, i) == cards[..p] + cards[p + 1..]
  {
  }

  /** `splice(-1, 1)` removes the last card. */
  lemma {:induction false} SpliceMinusOneDropsLast(cards: seq<Json>)
    requires cards != []
    ensures Splice(cards, -1) == cards[..|cards| - 1]
  {
  }

  /** `data.flashcards || []` followed by the `splice` call: a missing or
      falsy field is the empty list; a truthy value that is not an array has
      no `splice` method, which throws. */
  function StoredCards(fields: Fields): (r: Option<seq<Json>>)
    ensures ("flashcards" !in fields || !Truthy(fields["flashcards"])) ==> r == Some([])
    ensures "flashcards" in fields && fields["flashcards"].JArray? ==> r == Some(fields["flashcards"].elems)
    ensures r.None? <==> "flashcards" in fields && Truthy(fields["flashcards"]) && !fields["flashcards"].JArray?
  {
    if "flashcards" !in fields || !Truthy(fields["flashcards"]) then Some([])
    else if fields["flashcards"].JArray? then Some(fields["flashcards"].elems)
    else None
  }

  /** The status the handler answers with and the database afterwards. */
  datatype Reply = Reply(status: int, docs: map<DocRef, Fields>)

  /** Lines 9-32 as one function of the database before the request. */
  function Delete(docs: map<DocRef, Fields>, deckId: Option<string>, index: Option<int>,
                  kind: Option<string>): Reply
  {
    if deckId.None? || deckId == Some("") || index.None? then Reply(400, docs)
    else
      var ref := DocRef(CollectionFor(kind), deckId.value);
      if ref !in docs then Reply(404, docs)
      else match StoredCards(docs[ref])
        case None => Reply(500, docs)
        case Some(cards) =>
          Reply(200, docs[ref := docs[ref]["flashcards" := JArray(Splice(cards, index.value))]])
  }

  /** Lines 11-13: a missing or empty deck id, or a missing index, is refused
      and nothing is written. */
  lemma {:induction false} MissingDataRejected(docs: map<DocRef, Fields>, deckId: Option<string>, index: Option<int>,
                            kind: Option<string>)
    ensures Delete(docs, deckId, index, kind).status == 400
        <==> deckId.None? || deckId == Some("") || index.None?
    ensures Delete(docs, deckId, index, kind).status == 400 ==> Delete(docs, deckId, index, kind).docs == docs
  {
  }

  /** Lines 21-23: a deck that is not stored gives 404 and nothing is written. */
  lemma {:induction false} MissingDeckNotFound(docs: map<DocRef, Fields>, id: string, index: int, kind: Option<string>)
    requires id != ""
    ensures Delete(docs, Some(id), Some(index), kind).status == 404
        <==> DocRef(CollectionFor(kind), id) !in docs
    ensures Delete(docs, Some(id), Some(index), kind).status == 404
        ==> Delete(docs, Some(id), Some(index), kind).docs == docs
  {
  }

  /** A `flashcards` value that is truthy but not an array makes `splice`
      throw: the handler answers 500 and writes nothing. */
  lemma {:induction false} NotAListFails(docs: map<DocRef, Fields>, id: string, index: int, kind: Option<string>)
    requires id != "" && DocRef(CollectionFor(kind), id) in docs
    requires StoredCards(docs[DocRef(CollectionFor(kind), id)]).None?
    ensures Delete(docs, Some(id), Some(index), kind) == Reply(500, docs)
  {
  }

  /** Line 30: on success only the `flashcards` field of the selected deck is
      written; every other field and every other document is unchanged, and
      no document appears or disappears. */
  lemma {:induction false} OnlyTheListChanges(docs: map<DocRef, Fields>, id: string, index: int, kind: Option<string>)
    requires id != ""
    ensures var r := Delete(docs, Some(id), Some(index), kind);
      var ref := DocRef(CollectionFor(kind), id);
      r.docs.Keys == docs.Keys
      && (forall d :: d in docs && d != ref ==> r.docs[d] == docs[d])
      && (r.status == 200 ==>
            r.docs[ref].Keys == docs[ref].Keys + {"flashcards"}
            && forall f :: f in docs[ref] && f != "flashcards" ==> r.docs[ref][f] == docs[ref][f])
  {
  }

  /** A stored list with the card at an in-range index (0 included) removed:
      the written list is one shorter and keeps the other cards in order. */
  lemma {:induction false} InRangeRemovesOne(docs: map<DocRef, Fields>, id: string, i: int, kind: Option<string>,
                          cards: seq<Json>)
    requires id != "" && DocRef(CollectionFor(kind), id) in docs
    requires StoredCards(docs[DocRef(CollectionFor(kind), id)]) == Some(cards)
    requires 0 <= i < |cards|
    ensures var r := Delete(docs, Some(id), Some(i), kind);
      r.status == 200
      && r.docs[DocRef(CollectionFor(kind), id)]["flashcards"] == JArray(cards[..i] + cards[i + 1..])
  {
  }

  /** An index past the end writes the list back unchanged; a missing or
      falsy field is written back as the empty list. */
  lemma {:induction false} OutOfRangeWritesBack(docs: map<DocRef, Fields>, id: string, i: int, kind: Option<string>,
                             cards: seq<Json>)
    requires id != "" && DocRef(CollectionFor(kind), id) in docs
    requires StoredCards(docs[DocRef(CollectionFor(kind), id)]) == Some(cards)
    requires i >= |cards|
    ensures var r := Delete(docs, Some(id), Some(i), kind);
      r.status == 200 && r.docs[DocRef(CollectionFor(kind), id)]["flashcards"] == JArray(cards)
  {
    SpliceOutOfRange(cards, i);
  }

  /** `cards.splice(index, 1)` on an array of the cards, moving the later
      elements down one place; the new length is returned, since a JavaScript
      array shrinks where a Dafny array keeps its size. */
  method SpliceInPlace(a: array<Json>, index: int) returns (n: nat)
    modifies a
    ensures n <= a.Length
    ensures a[..n] == Splice(old(a[..]), index)
  {
    ghost var before := a[..];
    var start := SpliceStart(a.Length, index);
    if start == a.Length {
      assert a[..a.Length] == before;
      return a.Length;
    }
    var i := start;
    while i < a.Length - 1
      invariant start <= i <= a.Length - 1
      invariant forall k :: 0 <= k < start ==> a[k] == before[k]
      invariant forall k :: start <= k < i ==> a[k] == before[k + 1]
      invariant forall k :: i <= k < a.Length ==> a[k] == before[k]
    {
      a[i] := a[i + 1];
      i := i + 1;
    }
    n := a.Length - 1;
    ShiftedDown(before, a[..], start);
  }

  /** Moving every element after `start` down one place leaves, in the first
      `|before| - 1` places, the list without its element at `start`. */
  lemma {:induction false} ShiftedDown(before: seq<Json>, after: seq<Json>, start: nat)
    requires start < |before| == |after|
    requires forall k :: 0 <= k < start ==> after[k] == before[k]
    requires forall k :: start <= k < |before| - 1 ==> after[k] == before[k + 1]
    ensures after[..|before| - 1] == before[..start] + before[start + 1..]
  {
    var removed := before[..start] + before[start + 1..];
    forall k | 0 <= k < |before| - 1 ensures after[k] == removed[k] {
      if k < start {
        assert removed[k] == before[k];
      } else {
        assert removed[k] == before[k + 1];
      }
    }
  }

  /** The database of decks. */
  class DeckStore {
    var docs: map<DocRef, Fields>

    constructor(initial: map<DocRef, Fields>)
      ensures docs == initial
    {
      docs := initial;
    }

    /** The handler body, step by step. */
    method DeleteCard(deckId: Option<string>, index: Option<int>, kind: Option<string>)
      returns (status: int)
      modifies this
      ensures Reply(status, docs) == Delete(old(docs), deckId, index, kind)
    {
      if deckId.None? || deckId == Some("") || index.None? {
        return 400;
      }
      var ref := DocRef(CollectionFor(kind), deckId.value);
      if ref !in docs {
        return 404;
      }
      var data := docs[ref];
      var stored := StoredCards(data);
      if stored.None? {
        return 500;
      }
      var cards := new Json[|stored.value|](i requires 0 <= i < |stored.value| => stored.value[i]);
      assert cards[..] == stored.value;
      var n := SpliceInPlace(cards, index.value);
      docs := docs[ref := data["flashcards" := JArray(cards[..n])]];
      return 200;
    }
  }
}
