/**
 * Card records and the pure operations the admin handler applies to the
 * collection read from cards.json: the image name given to an upload, the
 * first-match search, the in-place field updates and the splice. Also the
 * collection invariant that ties the collection to the files on disk, and
 * lemmas showing which edits keep it.
 */
module Cards {

  datatype Option<T> = None | Some(value: T)

  /** One record of cards.json. */
  datatype Card = Card(id: string, text: string, image: string, createdAt: string)

  /** A file received by the multipart parser: where it was written on disk
      and the client's name for it (absent when the client sent none). */
  datatype Upload = Upload(filepath: string, originalFilename: Option<string>)

  /** The public URL prefix of stored images; the file at public/uploads/N is
      referred to as UploadsDir + N. */
  const UploadsDir: string := "/uploads/"

  /** What readCards returns for the stored document: the empty collection
      when the document is absent or does not parse. */
  function ReadCards(doc: Option<seq<Card>>): (cards: seq<Card>)
    ensures doc.None? ==> cards == []
    ensures doc.Some? ==> cards == doc.value
  {
    match doc
    case None => []
    case Some(cards) => cards
  }

  /** `image.originalFilename || 'image'`: an absent or empty name falls back. */
  function BaseName(originalFilename: Option<string>): (r: string)
    ensures r != []
    ensures originalFilename.Some? && originalFilename.value != [] ==> r == originalFilename.value
    ensures originalFilename.None? || originalFilename.value == [] ==> r == "image"
  {
    if originalFilename.Some? && originalFilename.value != [] then originalFilename.value else "image"
  }

  /** The reference stored in a card for an upload renamed with `uuid`. */
  function ImageRef(uuid: string, originalFilename: Option<string>): (r: string)
    ensures |r| > |UploadsDir| + |uuid| + 1
    ensures r[..|UploadsDir|] == UploadsDir
    ensures r[|UploadsDir|..|UploadsDir| + |uuid|] == uuid
    ensures r[|UploadsDir| + |uuid|] == '-'
    ensures r[|UploadsDir| + |uuid| + 1..] == BaseName(originalFilename)
  {
    UploadsDir + uuid + "-" + BaseName(originalFilename)
  }

  /** Two uploads named with different uuids of the same length (uuidv4
      always yields 36 characters) never get the same reference. */
  lemma ImageRefDeterminesUuid(u1: string, n1: Option<string>, u2: string, n2: Option<string>)
    requires |u1| == |u2|
    requires ImageRef(u1, n1) == ImageRef(u2, n2)
    ensures u1 == u2
  {
    var k := |UploadsDir|;
    var r := ImageRef(u1, n1);
    calc {
      u1;
      r[k..k + |u1|];
      ImageRef(u2, n2)[k..k + |u2|];
      u2;
    }
  }

  /** `cards.findIndex(card => card.id === id)`, None standing for -1. */
  function FirstMatch(cards: seq<Card>, id: string): (r: Option<nat>)
    ensures r.Some? ==> r.value < |cards| && cards[r.value].id == id
    ensures r.Some? ==> forall j :: 0 <= j < r.value ==> cards[j].id != id
    ensures r.None? <==> id !in Ids(cards)
  {
    if |cards| == 0 then None
    else if cards[0].id == id then Some(0)
    else
      match FirstMatch(cards[1..], id)
      case None =>
        assert Ids(cards) == {cards[0].id} + Ids(cards[1..]) by { IdsCons(cards); }
        None
      case Some(i) =>
        IdsCons(cards);
        Some(i + 1)
  }

  /** `cards[i].text = text`: only the text of the i-th card changes. */
  function WithText(cards: seq<Card>, i: nat, text: string): (r: seq<Card>)
    requires i < |cards|
    ensures |r| == |cards|
    ensures r[i].text == text
    ensures r[i].id == cards[i].id && r[i].image == cards[i].image && r[i].createdAt == cards[i].createdAt
    ensures forall j :: 0 <= j < |cards| && j != i ==> r[j] == cards[j]
  {
    cards[i := cards[i].(text := text)]
  }

  /** `cards[i].image = image`: only the image of the i-th card changes. */
  function WithImage(cards: seq<Card>, i: nat, image: string): (r: seq<Card>)
    requires i < |cards|
    ensures |r| == |cards|
    ensures r[i].image == image
    ensures r[i].id == cards[i].id && r[i].text == cards[i].text && r[i].createdAt == cards[i].createdAt
    ensures forall j :: 0 <= j < |cards| && j != i ==> r[j] == cards[j]
  {
    cards[i := cards[i].(image := image)]
  }

  /** `cards.splice(i, 1)`: the i-th card goes, the others keep their order. */
  function RemoveAt(cards: seq<Card>, i: nat): (r: seq<Card>)
    requires i < |cards|
    ensures |r| == |cards| - 1
    ensures forall j :: 0 <= j < i ==> r[j] == cards[j]
    ensures forall j :: i <= j < |r| ==> r[j] == cards[j + 1]
    ensures multiset(r) + multiset{cards[i]} == multiset(cards)
  {
    assert cards == cards[..i] + [cards[i]] + cards[i + 1..];
    cards[..i] + cards[i + 1..]
  }

  function Ids(cards: seq<Card>): set<string>
  {
    set c | c in cards :: c.id
  }

  function Images(cards: seq<Card>): set<string>
  {
    set c | c in cards :: c.image
  }

  lemma IdsCons(cards: seq<Card>)
    requires |cards| > 0
    ensures Ids(cards) == {cards[0].id} + Ids(cards[1..])
    ensures Images(cards) == {cards[0].image} + Images(cards[1..])
  {
    assert forall c :: c in cards <==> c == cards[0] || c in cards[1..];
  }

  predicate UniqueIds(cards: seq<Card>)
  {
    forall i, j :: 0 <= i < j < |cards| ==> cards[i].id != cards[j].id
  }

  predicate DistinctImages(cards: seq<Card>)
  {
    forall i, j :: 0 <= i < j < |cards| ==> cards[i].image != cards[j].image
  }

  /** The collection invariant: ids are unique, every card owns its own image
      file, and that file exists. */
  predicate Consistent(cards: seq<Card>, files: set<string>)
  {
    UniqueIds(cards) && DistinctImages(cards) && Images(cards) <= files
  }

  /** The uploaded temporary file and the name it is moved to are not the
      image of any card (what fresh uuids and a fresh upload give). */
  predicate FreshUpload(cards: seq<Card>, src: string, dst: string)
  {
    src !in Images(cards) && dst !in Images(cards)
  }

  /** Under the invariant, the first match of a card's id is that card. */
  lemma FirstMatchOfUnique(cards: seq<Card>, k: nat)
    requires UniqueIds(cards) && k < |cards|
    ensures FirstMatch(cards, cards[k].id) == Some(k)
  {
    assert cards[k] in cards;
  }

  /** Moving a file that no card refers to leaves the invariant intact. */
  lemma MoveKeepsConsistent(cards: seq<Card>, files: set<string>, src: string, dst: string)
    requires Consistent(cards, files) && src !in Images(cards)
    ensures Consistent(cards, files - {src} + {dst})
  {
  }

  /** Create: appending a card with a fresh id whose image was just moved
      into place keeps the invariant. */
  lemma AppendKeepsConsistent(cards: seq<Card>, files: set<string>, src: string, card: Card)
    requires Consistent(cards, files)
    requires card.id !in Ids(cards) && FreshUpload(cards, src, card.image)
    ensures Consistent(cards + [card], files - {src} + {card.image})
    ensures Ids(cards + [card]) == Ids(cards) + {card.id}
  {
    var r := cards + [card];
    assert forall c :: c in r <==> c in cards || c == card;
    forall i, j | 0 <= i < j < |r|
      ensures r[i].id != r[j].id && r[i].image != r[j].image
    {
      if j == |cards| {
        assert r[i] in cards;
      }
    }
  }

  /** Collections that agree on every position's id and image have the same
      ids and images. */
  lemma SameKeysSameSets(a: seq<Card>, b: seq<Card>)
    requires |a| == |b|
    requires forall j :: 0 <= j < |a| ==> a[j].id == b[j].id && a[j].image == b[j].image
    ensures Ids(a) == Ids(b) && Images(a) == Images(b)
  {
    forall c | c in a ensures c.id in Ids(b) && c.image in Images(b) {
      var j :| 0 <= j < |a| && a[j] == c;
      assert b[j] in b;
    }
    forall c | c in b ensures c.id in Ids(a) && c.image in Images(a) {
      var j :| 0 <= j < |b| && b[j] == c;
      assert a[j] in a;
    }
  }

  /** Update without an image: a new text keeps the invariant. */
  lemma WithTextKeepsConsistent(cards: seq<Card>, files: set<string>, i: nat, text: string)
    requires Consistent(cards, files) && i < |cards|
    ensures Consistent(WithText(cards, i, text), files)
    ensures Ids(WithText(cards, i, text)) == Ids(cards)
  {
    SameKeysSameSets(WithText(cards, i, text), cards);
  }

  /** Update with an image: once the new file is in place and the old one
      unlinked, pointing the card at the new file keeps the invariant. */
  lemma ReplaceImageKeepsConsistent(cards: seq<Card>, files: set<string>, i: nat, text: string, src: string, dst: string)
    requires Consistent(cards, files) && i < |cards| && FreshUpload(cards, src, dst)
    ensures Consistent(WithImage(WithText(cards, i, text), i, dst), files - {src} + {dst} - {cards[i].image})
  {
    var r := WithImage(WithText(cards, i, text), i, dst);
    var after := files - {src} + {dst} - {cards[i].image};
    assert cards[i] in cards;
    forall j, k | 0 <= j < k < |r|
      ensures r[j].id != r[k].id && r[j].image != r[k].image
    {
      if j == i {
        assert cards[k] in cards;
      } else if k == i {
        assert cards[j] in cards;
      }
    }
    forall c | c in r ensures c.image in after {
      var j :| 0 <= j < |r| && r[j] == c;
      if j != i {
        assert cards[j] in cards;
      }
    }
  }

  lemma SetsConcat(a: seq<Card>, b: seq<Card>)
    ensures Ids(a + b) == Ids(a) + Ids(b) && Images(a + b) == Images(a) + Images(b)
  {
    assert forall c :: c in a + b <==> c in a || c in b;
  }

  lemma SetsSingleton(x: Card)
    ensures Ids([x]) == {x.id} && Images([x]) == {x.image}
  {
    assert forall c :: c in [x] <==> c == x;
  }

  /** With unique ids and images, no other card shares the i-th card's id or image. */
  lemma OthersDiffer(cards: seq<Card>, i: nat)
    requires UniqueIds(cards) && DistinctImages(cards) && i < |cards|
    ensures cards[i].id !in Ids(cards[..i]) + Ids(cards[i + 1..])
    ensures cards[i].image !in Images(cards[..i]) + Images(cards[i + 1..])
  {
    var a, x, b := cards[..i], cards[i], cards[i + 1..];
    forall c | c in a ensures c.id != x.id && c.image != x.image {
      var j :| 0 <= j < |a| && a[j] == c;
      assert cards[j] == c;
    }
    forall c | c in b ensures c.id != x.id && c.image != x.image {
      var j :| 0 <= j < |b| && b[j] == c;
      assert cards[i + 1 + j] == c;
    }
  }

  /** With unique ids and images, splicing out the i-th card removes exactly
      its id and its image from the collection's ids and images. */
  lemma RemoveAtSets(cards: seq<Card>, i: nat)
    requires UniqueIds(cards) && DistinctImages(cards) && i < |cards|
    ensures Ids(RemoveAt(cards, i)) == Ids(cards) - {cards[i].id}
    ensures Images(RemoveAt(cards, i)) == Images(cards) - {cards[i].image}
  {
    var a, x, b := cards[..i], cards[i], cards[i + 1..];
    assert cards == a + [x] + b;
    assert RemoveAt(cards, i) == a + b;
    SetsConcat(a + [x], b);
    SetsConcat(a, [x]);
    SetsConcat(a, b);
    SetsSingleton(x);
    OthersDiffer(cards, i);
  }

  /** Delete: splicing out the i-th card and unlinking its image keeps the
      invariant and leaves no card with that id. */
  lemma RemoveAtKeepsConsistent(cards: seq<Card>, files: set<string>, i: nat)
    requires Consistent(cards, files) && i < |cards|
    ensures Consistent(RemoveAt(cards, i), files - {cards[i].image})
    ensures Ids(RemoveAt(cards, i)) == Ids(cards) - {cards[i].id}
  {
    var r := RemoveAt(cards, i);
    forall j, k | 0 <= j < k < |r|
      ensures r[j].id != r[k].id && r[j].image != r[k].image
    {
      var j' := if j < i then j else j + 1;
      var k' := if k < i then k else k + 1;
      assert r[j] == cards[j'] && r[k] == cards[k'] && j' < k';
    }
    RemoveAtSets(cards, i);
  }
}
