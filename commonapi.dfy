/** The book endpoints of the common API: `/api/books` lists the inventory,
    `/api/book` looks books up by user name, commit or repository name. */
module CommonApi {
  import opened Results
  import opened Common

  /** A reply of `/api/books`: the inventory, or the message of an empty
      server. */
  datatype Reply = Listing(status: int, books: seq<Book>) | Message(status: int, text: string)

  const NoBooks := "There are no books on this server yet."

  /** api_get_books over the inventory `load_all` returned. */
  function ApiGetBooks(books: seq<Book>): (r: Reply)
    ensures r.status == 200 || r.status == 404
    ensures r.status == 404 <==> books == []
    ensures r.status == 200 ==> r == Listing(200, books)
  {
    if books != [] then Listing(200, books) else Message(404, NoBooks)
  }

  /** Python truthiness of an optional query parameter. */
  predicate Given(param: Option<string>) {
    param.Some? && param.value != ""
  }

  /** api_get_book: 400 when no parameter is truthy, 404 when the lookup
      finds nothing, otherwise the books found. */
  function ApiGetBook(books: seq<Book>, userName: Option<string>, commitHash: Option<string>,
                      repoName: Option<string>): (r: Result<seq<Book>>)
    ensures r.Err? ==> r.error == Abort(400, "") || r.error == Abort(404, "")
    ensures r.Ok? ==> r.value != [] && |r.value| <= |books| && forall b :: b in r.value ==> b in books
  {
    if !(Given(userName) || Given(commitHash) || Given(repoName)) then Err(Abort(400, ""))
    else
      var results := SelectBooks(books, userName, commitHash, repoName);
      if results == [] then Err(Abort(404, "")) else Ok(results)
  }

  /** The status decision: 400 exactly when every parameter is falsy, 404
      exactly when a truthy parameter is given but the lookup is empty;
      otherwise the reply is the lookup itself, a non-empty selection of the
      inventory in inventory order, every book of which matches the first
      parameter that is not None. */
  lemma ApiGetBookStatus(books: seq<Book>, userName: Option<string>, commitHash: Option<string>,
                         repoName: Option<string>)
    ensures var r := ApiGetBook(books, userName, commitHash, repoName);
            var results := SelectBooks(books, userName, commitHash, repoName);
            && (r == Err(Abort(400, "")) <==> !Given(userName) && !Given(commitHash) && !Given(repoName))
            && (r == Err(Abort(404, "")) <==> (Given(userName) || Given(commitHash) || Given(repoName)) && results == [])
            && (r.Err? ==> r == Err(Abort(400, "")) || r == Err(Abort(404, "")))
            && (r.Ok? ==>
                  && r.value == results && r.value != []
                  && Subsequence(r.value, books)
                  && forall b :: b in r.value ==>
                       if userName.Some? then b.userName == userName.value
                       else if commitHash.Some? then b.commitHash == commitHash.value
                       else repoName.Some? && b.repoName == repoName.value)
  {
    SelectBooksIsSelection(books, userName, commitHash, repoName);
  }

  /** The guard tests truthiness but the lookup tests `is not None`: with
      an empty user name and a real commit, the request passes the guard and
      then selects the books whose user name is empty, so a book stored
      under that commit by a named user is not found. */
  lemma EmptyUserNameShadowsCommit(b: Book)
    requires b.userName != "" && b.commitHash != ""
    ensures ApiGetBook([b], Some(""), Some(b.commitHash), None) == Err(Abort(404, ""))
    ensures ApiGetBook([b], None, Some(b.commitHash), None) == Ok([b])
  {
    assert SelectBooks([b], Some(""), Some(b.commitHash), None) == BooksWhere([b], ByUser, "");
    assert BooksWhere([b], ByUser, "") == [];
    assert BooksWhere([b], ByCommit, b.commitHash) == [b];
  }
}
