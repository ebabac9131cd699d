/** The phrase view's decisions: the shortened title of the phrase modal and
    the list edits after the server accepts a favourite toggle, an edit or a
    delete. The new creation instant of an edit is computed by `Date` from the
    chosen day and is passed in as a string. */
module Phrases {
  import opened Text
  import ById

  datatype Phrase = Phrase(id: int, text: string, author: string, createdAt: string, favorite: bool)

  /** The modal's title: texts longer than 225 characters show their first
      225 followed by "...". */
  function ModalTitle(text: string): (r: string)
    ensures |text| <= 225 ==> r == text
    ensures |text| > 225 ==> r == text[..225] + "..."
  {
    Truncate(text, 225)
  }

  function IdOf(p: Phrase): int {
    p.id
  }

  /** `handleFavoriteToggle`: only phrases with the id take the new favourite
      flag, in the list and in the search results; nothing else changes. */
  function SetFavorite(v: ById.View<Phrase>, id: int, favorite: bool): (r: ById.View<Phrase>)
    ensures |r.items| == |v.items| && |r.results| == |v.results|
    ensures forall i :: 0 <= i < |v.items| ==>
      r.items[i] == if v.items[i].id == id then v.items[i].(favorite := favorite) else v.items[i]
    ensures forall i :: 0 <= i < |v.results| ==>
      r.results[i] == if v.results[i].id == id then v.results[i].(favorite := favorite) else v.results[i]
    ensures r.searching == v.searching && r.notice == v.notice
  {
    ById.UpdateView(v, IdOf, id, (p: Phrase) => p.(favorite := favorite))
  }

  /** Toggling twice restores the flag the phrase had. */
  lemma FavoriteToggleTwice(v: ById.View<Phrase>, id: int, favorite: bool)
    requires forall p :: p in v.items ==> p.id != id || p.favorite == favorite
    ensures SetFavorite(SetFavorite(v, id, !favorite), id, favorite).items == v.items
  {
    var once := SetFavorite(v, id, !favorite);
    var twice := SetFavorite(once, id, favorite);
    forall i | 0 <= i < |v.items| ensures twice.items[i] == v.items[i] {
      assert v.items[i] in v.items;
    }
  }

  /** `handleUpdatePhrase`: phrases with the id take the new text and creation
      instant; nothing else changes. */
  function EditPhrase(v: ById.View<Phrase>, id: int, createdAt: string, text: string): (r: ById.View<Phrase>)
    ensures |r.items| == |v.items| && |r.results| == |v.results|
    ensures forall i :: 0 <= i < |v.items| ==>
      r.items[i] == if v.items[i].id == id then v.items[i].(createdAt := createdAt, text := text) else v.items[i]
    ensures forall i :: 0 <= i < |v.results| ==>
      r.results[i] == if v.results[i].id == id then v.results[i].(createdAt := createdAt, text := text) else v.results[i]
  {
    ById.UpdateView(v, IdOf, id, (p: Phrase) => p.(createdAt := createdAt, text := text))
  }

  /** `handleDeletePhrase`: both lists lose the id, the back button hides once
      no search result is left, and an emptied list says that no recent
      phrases were found. */
  function DeletePhrase(v: ById.View<Phrase>, id: int): (r: ById.View<Phrase>)
    ensures forall p :: p in r.items <==> p in v.items && p.id != id
    ensures forall p :: p in r.results <==> p in v.results && p.id != id
    ensures r.searching <==> v.searching && exists p :: p in v.results && p.id != id
    ensures r.notice == "No se encontraron frases recientes" <==> forall p :: p in v.items ==> p.id == id
    ensures r.notice != "No se encontraron frases recientes" ==> r.notice == ""
    ensures ById.KeepsOrder(r.items, v.items, IdOf, id) && ById.KeepsOrder(r.results, v.results, IdOf, id)
  {
    ById.DeleteFromView(v, IdOf, id, "No se encontraron frases recientes")
  }
}
