/** The category collection as the data layer stores and lists it. A stored
    document has a key chosen by the store and its data fields. The seeded
    categories keep their own `id` field among the data. The form's categories
    have no such field. Listing a document spreads its data over
    `{ id: key }`, so a data field `id` hides the key. */
module CategoryStore {
  import opened Wrappers
  import opened Collections
  import opened Records

  datatype CategoryDoc = CategoryDoc(key: string, idField: Option<string>, nome: string, tipo: string, cor: string)

  /** `addDoc(colecaoRef, categoria)` for a seeded category: the store picks
      `key`, and the data keep the category's `id`. */
  function SeedDoc(key: string, c: Category): (d: CategoryDoc)
    ensures d.key == key && d.idField == Some(c.id)
  {
    CategoryDoc(key, Some(c.id), c.nome, c.tipo, c.cor)
  }

  /** `addDoc(colecaoRef, novaCategoria)` for a category from the form: no `id` field. */
  function CreatedDoc(key: string, c: CategoryDraft): (d: CategoryDoc)
    ensures d.key == key && d.idField.None?
  {
    CategoryDoc(key, None, c.nome, c.tipo, c.cor)
  }

  /** `{ id: documento.id, ...documento.data() }`: the data's `id`, when present,
      wins over the document key. */
  function ListedAsWritten(d: CategoryDoc): (c: Category)
    ensures c.id == (if d.idField.Some? then d.idField.value else d.key)
    ensures c.nome == d.nome && c.tipo == d.tipo && c.cor == d.cor
  {
    Category(d.idField.GetOr(d.key), d.nome, d.tipo, d.cor)
  }

  /** The listing with the document key always as the id, which is what
      deleting and editing by `doc(db, COLECAO, id)` need. */
  function Listed(d: CategoryDoc): (c: Category)
    ensures c.id == d.key
    ensures c.nome == d.nome && c.tipo == d.tipo && c.cor == d.cor
  {
    Category(d.key, d.nome, d.tipo, d.cor)
  }

  function ListingAsWritten(docs: seq<CategoryDoc>): (cs: seq<Category>)
    ensures |cs| == |docs| && forall i :: 0 <= i < |docs| ==> cs[i] == ListedAsWritten(docs[i])
  {
    seq(|docs|, i requires 0 <= i < |docs| => ListedAsWritten(docs[i]))
  }

  function Listing(docs: seq<CategoryDoc>): (cs: seq<Category>)
    ensures |cs| == |docs| && forall i :: 0 <= i < |docs| ==> cs[i] == Listed(docs[i])
  {
    seq(|docs|, i requires 0 <= i < |docs| => Listed(docs[i]))
  }

  function KeyNot(x: string): CategoryDoc -> bool {
    (d: CategoryDoc) => d.key != x
  }

  /** `apagarCategoria(id)`: `deleteDoc(doc(db, "categorias", id))` removes the
      document whose key is `id`, and nothing when there is none. */
  function ApagarCategoria(docs: seq<CategoryDoc>, id: string): (r: seq<CategoryDoc>)
    ensures forall d :: d in r <==> d in docs && d.key != id
  {
    forall d ensures d in Filter(docs, KeyNot(id)) <==> d in docs && d.key != id {
      FilterMembership(docs, KeyNot(id), d);
    }
    Filter(docs, KeyNot(id))
  }

  /** For every category the form creates, the two listings agree. */
  lemma CreatedListedAlike(key: string, c: CategoryDraft)
    ensures ListedAsWritten(CreatedDoc(key, c)) == Listed(CreatedDoc(key, c))
    ensures Listed(CreatedDoc(key, c)) == Category(key, c.nome, c.tipo, c.cor)
  {
  }

  /** As written, a seeded category survives its own deletion: it is listed
      with id "2", `apagarCategoria("2")` looks for a document keyed "2", and
      the seeded document has a key the store chose. */
  lemma SeededCategorySurvivesDelete()
    ensures var alimentacao := Category("2", "Alimentação", EXPENSE, "#FF6384");
      var docs := [SeedDoc("q3Xf", alimentacao)];
      && ListingAsWritten(docs) == [alimentacao]
      && ListingAsWritten(ApagarCategoria(docs, alimentacao.id)) == [alimentacao]
  {
    var alimentacao := Category("2", "Alimentação", EXPENSE, "#FF6384");
    var docs := [SeedDoc("q3Xf", alimentacao)];
    assert ListingAsWritten(docs)[0] == alimentacao;
    assert ApagarCategoria(docs, "2") == docs by {
      FilterSingleton(docs[0], KeyNot("2"));
      assert docs == [docs[0]];
    }
  }

  function IdNot(x: string): Category -> bool {
    (c: Category) => c.id != x
  }

  lemma ListingAppend(a: seq<CategoryDoc>, b: seq<CategoryDoc>)
    ensures Listing(a + b) == Listing(a) + Listing(b)
  {
  }

  /** With the key as the listed id, deleting an id lists exactly the
      categories listed before whose id differs, in the same order. This is
      the category part of `Finance.CascadeOutcome`. */
  lemma {:induction false} DeleteRemovesListed(docs: seq<CategoryDoc>, id: string)
    ensures Listing(ApagarCategoria(docs, id)) == Filter(Listing(docs), IdNot(id))
    decreases |docs|
  {
    if |docs| > 0 {
      var before := Listing(docs);
      var tail := docs[1..];
      var head := if KeyNot(id)(docs[0]) then [docs[0]] else [];
      assert ApagarCategoria(docs, id) == head + ApagarCategoria(tail, id);
      assert before[0] == Listed(docs[0]) && before[1..] == Listing(tail);
      assert Listing(head) == if IdNot(id)(before[0]) then [before[0]] else [];
      DeleteRemovesListed(tail, id);
      ListingAppend(head, ApagarCategoria(tail, id));
    }
  }

  /** Membership form of `DeleteRemovesListed`. */
  lemma DeleteRemovesListedMember(docs: seq<CategoryDoc>, id: string, c: Category)
    ensures c in Listing(ApagarCategoria(docs, id)) <==> c in Listing(docs) && c.id != id
  {
    DeleteRemovesListed(docs, id);
    FilterMembership(Listing(docs), IdNot(id), c);
  }
}
