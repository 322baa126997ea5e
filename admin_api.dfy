/**
 * The admin API handler: its GET, POST, PUT and DELETE branches as methods
 * of a class whose state is the content of cards.json and the set of files
 * under the public directory. The file-system calls the handler makes
 * (rename, unlink, writeFile) are methods that change that state one step at
 * a time, so that what each branch leaves behind when a step fails follows
 * the order of the steps.
 */
module AdminApi {
  import opened Cards

  /** Which step threw; the handler answers 500 for each of them. */
  datatype Failure = RenameFailed | UnlinkFailed | WriteFailed

  /** The handler's reply: 200 with a value, 404, or 500. */
  datatype Outcome<T> = Ok(value: T) | NotFound | Error(failure: Failure)

  class CardStore {
    /** cards.json: None when it is absent or does not parse. */
    var doc: Option<seq<Card>>
    /** Paths of the files under public/, written as URL paths ("/uploads/N"). */
    var files: set<string>

    constructor (doc: Option<seq<Card>>, files: set<string>)
      ensures this.doc == doc && this.files == files
    {
      this.doc := doc;
      this.files := files;
    }

    /** The stored collection meets the collection invariant against the disk. */
    ghost predicate Valid()
      reads this
    {
      Consistent(ReadCards(doc), files)
    }

    /** GET: the whole collection, empty when the document is missing or corrupt. */
    method List() returns (cards: seq<Card>)
      ensures cards == ReadCards(doc)
    {
      cards := ReadCards(doc);
    }

    /** fs.rename: fails when there is no file at `src`. */
    method Rename(src: string, dst: string) returns (ok: bool)
      modifies this`files
      ensures ok <==> src in old(files)
      ensures files == if ok then old(files) - {src} + {dst} else old(files)
    {
      ok := src in files;
      if ok {
        files := files - {src} + {dst};
      }
    }

    /** fs.unlink: fails when there is no file at `path`. */
    method Unlink(path: string) returns (ok: bool)
      modifies this`files
      ensures ok <==> path in old(files)
      ensures files == old(files) - {path}
    {
      ok := path in files;
      files := files - {path};
    }

    /** writeCards: `writeOk` says whether fs.writeFile completes. A failed
        write may have truncated the document, which then no longer parses. */
    method WriteCards(cards: seq<Card>, writeOk: bool) returns (ok: bool)
      modifies this`doc
      ensures ok == writeOk
      ensures ok ==> doc == Some(cards)
      ensures !ok ==> doc == old(doc) || doc == None
    {
      ok := writeOk;
      if ok {
        doc := Some(cards);
      }
    }

    /** POST: move the upload to a uuid-prefixed name, then append a card
        referring to it. `nameUuid` and `id` are the two uuidv4() results,
        `createdAt` the current time. */
    method Create(text: string, upload: Upload, nameUuid: string, id: string, createdAt: string, writeOk: bool)
      returns (out: Outcome<Card>)
      modifies this
      // the move comes first: if it fails nothing else happens
      ensures upload.filepath !in old(files) ==>
        out == Error(RenameFailed) && doc == old(doc) && files == old(files)
      ensures var image := ImageRef(nameUuid, upload.originalFilename);
        upload.filepath in old(files) ==> files == old(files) - {upload.filepath} + {image}
      // on success exactly one card is appended at the end
      ensures var card := Card(id, text, ImageRef(nameUuid, upload.originalFilename), createdAt);
        upload.filepath in old(files) && writeOk ==>
          out == Ok(card) && doc == Some(ReadCards(old(doc)) + [card])
      ensures upload.filepath in old(files) && !writeOk ==>
        out == Error(WriteFailed) && (doc == old(doc) || doc == None)
      ensures var cards := ReadCards(old(doc));
        (old(Valid()) && id !in Ids(cards) &&
         FreshUpload(cards, upload.filepath, ImageRef(nameUuid, upload.originalFilename))) ==> Valid()
    {
      ghost var cards0, files0 := ReadCards(doc), files;
      var image := ImageRef(nameUuid, upload.originalFilename);
      var moved := Rename(upload.filepath, image);
      if !moved {
        return Error(RenameFailed);
      }
      var card := Card(id, text, image, createdAt);
      var cards := ReadCards(doc);
      cards := cards + [card];
      var written := WriteCards(cards, writeOk);
      if old(Valid()) && id !in Ids(cards0) && FreshUpload(cards0, upload.filepath, image) {
        if written {
          AppendKeepsConsistent(cards0, files0, upload.filepath, card);
        } else if doc.Some? {
          MoveKeepsConsistent(cards0, files0, upload.filepath, image);
        }
      }
      if !written {
        return Error(WriteFailed);
      }
      out := Ok(card);
    }

    /** PUT: set the text of the first card with this id and, when a new image
        was uploaded, move it into place, unlink the old one and point the card
        at the new one; then write the collection back. */
    method Update(id: string, text: string, upload: Option<Upload>, nameUuid: string, writeOk: bool)
      returns (out: Outcome<Card>)
      modifies this
      // unknown id: 404 and nothing changes
      ensures FirstMatch(ReadCards(old(doc)), id).None? ==>
        out == NotFound && doc == old(doc) && files == old(files)
      // no new image: only the text of the matching card changes
      ensures var cards := ReadCards(old(doc)); var m := FirstMatch(cards, id);
        m.Some? && upload.None? ==>
          files == old(files) &&
          (writeOk ==> out == Ok(WithText(cards, m.value, text)[m.value]) &&
                       doc == Some(WithText(cards, m.value, text))) &&
          (!writeOk ==> out == Error(WriteFailed) && (doc == old(doc) || doc == None))
      // new image whose move fails: nothing changes
      ensures var m := FirstMatch(ReadCards(old(doc)), id);
        m.Some? && upload.Some? && upload.value.filepath !in old(files) ==>
          out == Error(RenameFailed) && doc == old(doc) && files == old(files)
      // new image moved, but the old file is missing: the new file stays,
      // the document is not written
      ensures var cards := ReadCards(old(doc)); var m := FirstMatch(cards, id);
        m.Some? && upload.Some? && upload.value.filepath in old(files) ==>
          var image := ImageRef(nameUuid, upload.value.originalFilename);
          var moved := old(files) - {upload.value.filepath} + {image};
          cards[m.value].image !in moved ==>
            out == Error(UnlinkFailed) && doc == old(doc) && files == moved
      // new image moved and old file unlinked: the card refers to the new file
      ensures var cards := ReadCards(old(doc)); var m := FirstMatch(cards, id);
        m.Some? && upload.Some? && upload.value.filepath in old(files) ==>
          var image := ImageRef(nameUuid, upload.value.originalFilename);
          var moved := old(files) - {upload.value.filepath} + {image};
          var updated := WithImage(WithText(cards, m.value, text), m.value, image);
          cards[m.value].image in moved ==>
            files == moved - {cards[m.value].image} &&
            (writeOk ==> out == Ok(updated[m.value]) && doc == Some(updated)) &&
            (!writeOk ==> out == Error(WriteFailed) && (doc == old(doc) || doc == None))
      // under the invariant the old file is always there to unlink, and a
      // completed update keeps the invariant
      ensures var cards := ReadCards(old(doc));
        old(Valid()) && (upload.Some? ==> FreshUpload(cards, upload.value.filepath, ImageRef(nameUuid, upload.value.originalFilename))) ==>
          out != Error(UnlinkFailed) && (writeOk || upload.None? ==> Valid())
      // under the invariant the card found is the only one with this id
      ensures var cards := ReadCards(old(doc));
        old(Valid()) ==> forall k :: 0 <= k < |cards| && cards[k].id == id ==> FirstMatch(cards, id) == Some(k)
    {
      ghost var cards0, files0 := ReadCards(doc), files;
      ghost var valid0 := Valid();
      if valid0 {
        forall k | 0 <= k < |cards0| && cards0[k].id == id ensures FirstMatch(cards0, id) == Some(k) {
          FirstMatchOfUnique(cards0, k);
        }
      }
      var cards := ReadCards(doc);
      var m := FirstMatch(cards, id);
      if m.None? {
        return NotFound;
      }
      var i := m.value;
      cards := WithText(cards, i, text);
      if upload.Some? {
        var image := ImageRef(nameUuid, upload.value.originalFilename);
        var moved := Rename(upload.value.filepath, image);
        if !moved {
          return Error(RenameFailed);
        }
        if valid0 && FreshUpload(cards0, upload.value.filepath, image) {
          assert cards0[i] in cards0;
        }
        var unlinked := Unlink(cards[i].image);
        if !unlinked {
          return Error(UnlinkFailed);
        }
        cards := WithImage(cards, i, image);
        if valid0 && FreshUpload(cards0, upload.value.filepath, image) {
          ReplaceImageKeepsConsistent(cards0, files0, i, text, upload.value.filepath, image);
        }
      } else if valid0 {
        WithTextKeepsConsistent(cards0, files0, i, text);
      }
      var written := WriteCards(cards, writeOk);
      if !written {
        return Error(WriteFailed);
      }
      out := Ok(cards[i]);
    }

    /** DELETE: unlink the image of the first card with this id, then splice
        the card out and write the collection back. */
    method Delete(id: string, writeOk: bool) returns (out: Outcome<()>)
      modifies this
      // unknown id: 404 and nothing changes
      ensures FirstMatch(ReadCards(old(doc)), id).None? ==>
        out == NotFound && doc == old(doc) && files == old(files)
      // the card's file is missing: the card stays
      ensures var cards := ReadCards(old(doc)); var m := FirstMatch(cards, id);
        m.Some? && cards[m.value].image !in old(files) ==>
          out == Error(UnlinkFailed) && doc == old(doc) && files == old(files)
      // the file is unlinked, then exactly the matching card is removed
      ensures var cards := ReadCards(old(doc)); var m := FirstMatch(cards, id);
        m.Some? && cards[m.value].image in old(files) ==>
          files == old(files) - {cards[m.value].image} &&
          (writeOk ==> out == Ok(()) && doc == Some(RemoveAt(cards, m.value))) &&
          (!writeOk ==> out == Error(WriteFailed) && (doc == old(doc) || doc == None))
      // under the invariant the unlink cannot fail, and a completed delete
      // keeps the invariant and leaves no card with this id
      ensures old(Valid()) ==> out != Error(UnlinkFailed)
      ensures old(Valid()) && writeOk ==> Valid()
      ensures old(Valid()) && out.Ok? ==> id !in Ids(ReadCards(doc))
      // under the invariant the card removed is the only one with this id
      ensures var cards := ReadCards(old(doc));
        old(Valid()) ==> forall k :: 0 <= k < |cards| && cards[k].id == id ==> FirstMatch(cards, id) == Some(k)
    {
      ghost var valid0 := Valid();
      if valid0 {
        ghost var cards0 := ReadCards(doc);
        forall k | 0 <= k < |cards0| && cards0[k].id == id ensures FirstMatch(cards0, id) == Some(k) {
          FirstMatchOfUnique(cards0, k);
        }
      }
      ghost var files0 := files;
      var cards := ReadCards(doc);
      var m := FirstMatch(cards, id);
      if m.None? {
        return NotFound;
      }
      var i := m.value;
      if valid0 {
        assert cards[i] in cards;
      }
      var unlinked := Unlink(cards[i].image);
      if !unlinked {
        return Error(UnlinkFailed);
      }
      if valid0 {
        RemoveAtKeepsConsistent(cards, files0, i);
      }
      cards := RemoveAt(cards, i);
      var written := WriteCards(cards, writeOk);
      if !written {
        return Error(WriteFailed);
      }
      out := Ok(());
    }
  }

  /** A session at the admin page: create a card, change its caption, replace
      its image, delete it. Returns what GET shows after each step and the
      files left in the public directory. The two uploads start in distinct
      temporary files; the second one is not where the first one is moved to. */
  method Session(first: string, second: string, id: string, createdAt: string,
                 a: Upload, uuidA: string, b: Upload, uuidB: string)
    returns (created: seq<Card>, captioned: seq<Card>, replaced: seq<Card>, deleted: seq<Card>, left: set<string>)
    requires a.filepath != b.filepath && b.filepath != ImageRef(uuidA, a.originalFilename)
    requires |uuidA| == |uuidB| && uuidA != uuidB
    ensures created == [Card(id, first, ImageRef(uuidA, a.originalFilename), createdAt)]
    ensures captioned == [Card(id, second, ImageRef(uuidA, a.originalFilename), createdAt)]
    ensures replaced == [Card(id, second, ImageRef(uuidB, b.originalFilename), createdAt)]
    ensures deleted == []
    ensures left == {}
  {
    var refA := ImageRef(uuidA, a.originalFilename);
    if refA == ImageRef(uuidB, b.originalFilename) {
      ImageRefDeterminesUuid(uuidA, a.originalFilename, uuidB, b.originalFilename);
    }
    var store := new CardStore(None, {a.filepath, b.filepath});
    created, captioned := CreateAndCaption(store, first, second, id, createdAt, a, uuidA, b.filepath);
    replaced, deleted := ReplaceAndDelete(store, Card(id, second, refA, createdAt), b, uuidB);
    left := store.files;
  }

  /** The first half of Session: POST on an empty store, then PUT without an image. */
  method CreateAndCaption(store: CardStore, first: string, second: string, id: string, createdAt: string,
                          a: Upload, uuidA: string, other: string)
    returns (created: seq<Card>, captioned: seq<Card>)
    requires store.doc == None && store.files == {a.filepath, other} && a.filepath != other
    modifies store
    ensures var card := Card(id, first, ImageRef(uuidA, a.originalFilename), createdAt);
      created == [card] && captioned == [card.(text := second)] &&
      store.doc == Some(captioned) && store.files == {other, card.image}
  {
    var card := Card(id, first, ImageRef(uuidA, a.originalFilename), createdAt);
    assert ReadCards(store.doc) == [] && [] + [card] == [card];
    var r1 := store.Create(first, a, uuidA, id, createdAt, true);
    assert store.doc == Some([card]);
    assert store.files == {other, card.image};
    created := store.List();
    assert ReadCards(store.doc) == [card] && FirstMatch([card], id) == Some(0);
    var r2 := store.Update(id, second, None, uuidA, true);
    assert WithText([card], 0, second) == [card.(text := second)];
    captioned := store.List();
  }

  /** The second half of Session: PUT with a new image, then DELETE. */
  method ReplaceAndDelete(store: CardStore, card: Card, b: Upload, uuidB: string)
    returns (replaced: seq<Card>, deleted: seq<Card>)
    requires store.doc == Some([card]) && store.files == {b.filepath, card.image}
    requires b.filepath != card.image && ImageRef(uuidB, b.originalFilename) != card.image
    modifies store
    ensures replaced == [card.(image := ImageRef(uuidB, b.originalFilename))]
    ensures deleted == [] && store.files == {}
  {
    var refB := ImageRef(uuidB, b.originalFilename);
    assert ReadCards(store.doc) == [card] && FirstMatch([card], card.id) == Some(0);
    var r3 := store.Update(card.id, card.text, Some(b), uuidB, true);
    assert WithImage(WithText([card], 0, card.text), 0, refB) == [card.(image := refB)];
    assert store.doc == Some([card.(image := refB)]) && store.files == {refB};
    replaced := store.List();
    assert ReadCards(store.doc) == replaced && FirstMatch(replaced, card.id) == Some(0);
    var r4 := store.Delete(card.id, true);
    assert |RemoveAt(replaced, 0)| == 0;
    deleted := store.List();
  }
}
