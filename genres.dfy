/** The read side and the request checks of `genre.routes.ts`: the name
    check, the detail lookup and the listing. The writes are methods of
    `Store.Catalog`. */
module Genres {
  import opened Common
  import opened Schema
  import opened Pagination

  /** `!name || typeof name !== 'string'` fails: a non-empty string. */
  predicate NameOk(body: map<string, Json>) {
    Field(body, "name").Str? && Field(body, "name").s != ""
  }

  /** Some genre, soft-deleted or not, has this name (the lookup by the
      unique name has no `deletedAt` filter). */
  predicate NameHeld(genres: map<Id, Genre>, name: string) {
    exists id :: id in genres && genres[id].name == name
  }

  /** Some genre that is not soft-deleted has this name. */
  predicate ActiveNameHeld(genres: map<Id, Genre>, name: string) {
    exists id :: id in genres && !genres[id].deleted && genres[id].name == name
  }

  /** A genre other than `genreId` has this name. */
  predicate NameHeldElsewhere(genres: map<Id, Genre>, genreId: Id, name: string) {
    exists id :: id in genres && id != genreId && genres[id].name == name
  }

  /** The delete guard: some book that is not soft-deleted references the genre. */
  predicate GenreInUseBy(books: map<Id, Book>, genreId: Id) {
    exists id :: id in books && !books[id].deleted && books[id].genreId == genreId
  }

  /** `GET /genre/:id`: only a genre that is not soft-deleted is found. */
  function GenreDetail(genres: map<Id, Genre>, genreId: Id): (r: Result<Genre>)
    ensures r == Err(InvalidRequest) <==> genreId == ""
    ensures r == Err(NotFound) <==> genreId != "" && !ActiveGenre(genres, genreId)
    ensures r.Ok? ==> ActiveGenre(genres, genreId) && r.value == genres[genreId] && !r.value.deleted
  {
    if genreId == "" then Err(InvalidRequest)
    else if !ActiveGenre(genres, genreId) then Err(NotFound)
    else Ok(genres[genreId])
  }

  /** The query string of the genre listing. */
  datatype GenreQuery = GenreQuery(page: Option<int>, limit: Option<int>, search: Option<string>, orderByName: Option<string>)

  /** The genres matching `where`, the name order, the page window and `meta`. */
  datatype GenreListing = GenreListing(matching: set<Id>, nameOrder: Direction, skip: int, take: int, meta: Meta)

  /** A genre the listing's `where` lets through. */
  predicate GenreListed(search: Option<string>, genre: Genre) {
    && !genre.deleted
    && (search.Some? && search.value != "" ==> ContainsInsensitive(genre.name, search.value))
  }

  /** `GET /genre`; a negative `skip` makes the database refuse the query. */
  function ListGenres(genres: map<Id, Genre>, q: GenreQuery): (r: Result<GenreListing>)
    ensures r.Err? <==> Skip(ParamOr(q.page, DefaultPage), ParamOr(q.limit, DefaultLimit)) < 0
    ensures r.Err? ==> r.error == Internal
    ensures r.Ok? ==>
      var page, limit := ParamOr(q.page, DefaultPage), ParamOr(q.limit, DefaultLimit);
      && (forall id :: id in r.value.matching <==>
            && id in genres && !genres[id].deleted
            && (q.search.Some? && q.search.value != "" ==> ContainsInsensitive(genres[id].name, q.search.value)))
      && (r.value.nameOrder == Desc <==> q.orderByName.Some? && Lower(q.orderByName.value) == "desc")
      && r.value.skip == Skip(page, limit) >= 0
      && r.value.take == limit
      && r.value.meta == PageMeta(page, limit, |r.value.matching|)
  {
    var page := ParamOr(q.page, DefaultPage);
    var limit := ParamOr(q.limit, DefaultLimit);
    var skip := (page - 1) * limit;
    var nameOrder := if q.orderByName.Some? && Lower(q.orderByName.value) == "desc" then Desc else Asc;
    if skip < 0 then Err(Internal)
    else
      var matching := set id | id in genres && GenreListed(q.search, genres[id]);
      Ok(GenreListing(matching, nameOrder, skip, limit, PageMeta(page, limit, |matching|)))
  }

  /** A soft-deleted genre is never listed and never found, whatever the query. */
  lemma DeletedGenreHidden(genres: map<Id, Genre>, genreId: Id, q: GenreQuery)
    requires genreId in genres && genres[genreId].deleted
    ensures GenreDetail(genres, genreId).Err?
    ensures ListGenres(genres, q).Ok? ==> genreId !in ListGenres(genres, q).value.matching
  {
  }
}
