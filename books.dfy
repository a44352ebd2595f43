/** The book records of main.py: a Book is saved as one JSON file in the
    working directory, read back with missing keys left absent, listed by the
    ".json" files of the directory and searched by author. */
module Books {
  import opened FileStore

  /** f.endswith('.json') */
  predicate IsJson(name: string) {
    |name| >= 5 && name[|name| - 5..] == ".json"
  }

  /** name[:-5]: the name without its last five characters. */
  function Stem(name: string): string {
    if |name| >= 5 then name[..|name| - 5] else ""
  }

  /** The file the "add" path writes a book to: f"{title}.json". */
  function FileNameFor(title: string): string {
    title + ".json"
  }

  /** A title's file is a ".json" file whose displayed name is the title again. */
  lemma FileNameForTitle(title: string)
    ensures IsJson(FileNameFor(title)) && Stem(FileNameFor(title)) == title
  {
  }

  /** The map save_to_file dumps for a book. */
  function BookData(author: Value, title: Value, page: Value, isbn: Value): (d: Data)
    ensures d.Keys == {"Author", "Title", "Page", "ISBN"}
  {
    map["Author" := author, "Title" := title, "Page" := page, "ISBN" := isbn]
  }

  /** data.get(key): the value stored under key, or None when the key is missing. */
  function Get(data: Data, key: string): Value {
    if key in data then data[key] else Null
  }

  /** data.get(key, default). */
  function GetOr(data: Data, key: string, default: Value): Value {
    if key in data then data[key] else default
  }

  /** Loading what save_to_file dumped gives back each of the four fields. */
  lemma LoadInvertsSave(author: Value, title: Value, page: Value, isbn: Value)
    ensures var d := BookData(author, title, page, isbn);
      Get(d, "Author") == author && Get(d, "Title") == title
      && Get(d, "Page") == page && Get(d, "ISBN") == isbn
  {
  }

  /** Loading a saved map from which the keys in missing were removed gives
      None for exactly the fields keyed by missing, and the saved value for
      the others. */
  lemma LoadWithMissingKeys(author: Value, title: Value, page: Value, isbn: Value, missing: set<string>)
    ensures var d := BookData(author, title, page, isbn) - missing;
      && Get(d, "Author") == (if "Author" in missing then Null else author)
      && Get(d, "Title") == (if "Title" in missing then Null else title)
      && Get(d, "Page") == (if "Page" in missing then Null else page)
      && Get(d, "ISBN") == (if "ISBN" in missing then Null else isbn)
  {
  }

  /** A book's file, written into a directory, reads back as the book's four
      fields, whatever the directory held before. */
  lemma {:induction false} SaveLoadRoundTrip(es: seq<Entry>, file: string,
                                             author: Value, title: Value, page: Value, isbn: Value)
    ensures var r := Find(Written(es, file, BookData(author, title, page, isbn)), file);
      r.Read?
      && Get(r.data, "Author") == author && Get(r.data, "Title") == title
      && Get(r.data, "Page") == page && Get(r.data, "ISBN") == isbn
  {
    FindAfterWrite(es, file, BookData(author, title, page, isbn), file);
  }

  // ----- Case folding -----

  /** str.lower() on one character, restricted to ASCII letters. */
  function LowerChar(c: char): char {
    if 'A' <= c <= 'Z' then (c as int + 32) as char else c
  }

  /** str.lower(), restricted to ASCII letters. */
  function Lower(s: string): string {
    seq(|s|, i requires 0 <= i < |s| => LowerChar(s[i]))
  }

  /** Lower-casing twice is lower-casing once. */
  lemma LowerIdempotent(s: string)
    ensures Lower(Lower(s)) == Lower(s)
  {
  }

  // ----- Listing -----

  /** The files of the directory whose names end in ".json", in directory order. */
  function JsonEntries(es: seq<Entry>): seq<Entry>
    decreases |es|
  {
    if es == [] then []
    else
      var init := JsonEntries(es[..|es| - 1]);
      if IsJson(es[|es| - 1].name) then init + [es[|es| - 1]] else init
  }

  /** [f for f in os.listdir() if f.endswith('.json')] */
  function JsonFiles(es: seq<Entry>): seq<string> {
    var js := JsonEntries(es);
    seq(|js|, k requires 0 <= k < |js| => js[k].name)
  }

  /** A strictly increasing sequence of positions. */
  ghost predicate Increasing(idx: seq<int>) {
    forall a, b :: 0 <= a < b < |idx| ==> idx[a] < idx[b]
  }

  /** The ".json" files of the directory are the files at the positions idx,
      and idx lists every position of a ".json" file, in order. */
  lemma {:induction false} JsonEntriesSelect(es: seq<Entry>) returns (idx: seq<int>)
    ensures |idx| == |JsonEntries(es)| && Increasing(idx)
    ensures forall k :: 0 <= k < |idx| ==>
      0 <= idx[k] < |es| && es[idx[k]] == JsonEntries(es)[k] && IsJson(es[idx[k]].name)
    ensures forall j :: 0 <= j < |es| && IsJson(es[j].name) ==> j in idx
    decreases |es|
  {
    if es == [] {
      idx := [];
    } else {
      var last := |es| - 1;
      var init := es[..last];
      var before := JsonEntriesSelect(init);
      var js, jsInit := JsonEntries(es), JsonEntries(init);
      forall k | 0 <= k < |before| ensures es[before[k]] == jsInit[k] && js[k] == jsInit[k] {
        assert init[before[k]] == es[before[k]];
      }
      if IsJson(es[last].name) {
        idx := before + [last];
        assert js[last - (last - |before|)] == es[last];
      } else {
        idx := before;
      }
      forall j | 0 <= j < |es| && IsJson(es[j].name) ensures j in idx {
        if j < last {
          assert init[j] == es[j];
          assert j in before;
        }
      }
    }
  }

  /** What list_books shows. */
  datatype ListOutcome = NoBooksFound | BooksListed(names: seq<string>)

  /** list_books: the names of the ".json" files, in directory order, each
      without its extension; "No books found." when there are none. */
  function ListBooks(es: seq<Entry>): ListOutcome {
    var books := JsonFiles(es);
    if books == [] then NoBooksFound
    else BooksListed(seq(|books|, k requires 0 <= k < |books| => Stem(books[k])))
  }

  /** names shows, in order, the files at the positions idx: exactly the
      ".json" files of the directory, each without its extension. */
  ghost predicate ListsJsonFiles(es: seq<Entry>, names: seq<string>, idx: seq<int>) {
    && |idx| == |names|
    && Increasing(idx)
    && (forall k :: 0 <= k < |idx| ==>
          0 <= idx[k] < |es| && IsJson(es[idx[k]].name) && names[k] == Stem(es[idx[k]].name))
    && (forall j :: 0 <= j < |es| && IsJson(es[j].name) ==> j in idx)
  }

  /** list_books reports "No books found." exactly when no file ends in
      ".json", and otherwise lists exactly those files, in order, stripped. */
  lemma ListBooksCorrect(es: seq<Entry>) returns (idx: seq<int>)
    ensures ListBooks(es).NoBooksFound? <==> forall j :: 0 <= j < |es| ==> !IsJson(es[j].name)
    ensures ListBooks(es).BooksListed? ==> ListsJsonFiles(es, ListBooks(es).names, idx)
  {
    idx := JsonEntriesSelect(es);
    var books := JsonFiles(es);
    assert |books| == |idx|;
    assert |idx| > 0 ==> IsJson(es[idx[0]].name);
    if exists j :: 0 <= j < |es| && IsJson(es[j].name) {
      var j :| 0 <= j < |es| && IsJson(es[j].name);
      assert j in idx;
    }
    if ListBooks(es).BooksListed? {
      var names := ListBooks(es).names;
      forall k | 0 <= k < |idx| ensures names[k] == Stem(es[idx[k]].name) {
        assert books[k] == JsonEntries(es)[k].name;
      }
    }
  }

  // ----- Search -----

  /** data.get("Author", "") */
  function AuthorOf(data: Data): Value {
    GetOr(data, "Author", Str(""))
  }

  /** data.get("Title", book_file[:-5]) */
  function TitleOf(e: Entry): Value {
    GetOr(e.data, "Title", Str(Stem(e.name)))
  }

  /** A ".json" file whose author, lower-cased, is the query lower-cased. */
  predicate Matches(e: Entry, query: string) {
    IsJson(e.name) && AuthorOf(e.data).Str? && Lower(AuthorOf(e.data).s) == Lower(query)
  }

  /** A ".json" file whose author is present but not a string: calling
      .lower() on it raises and ends the search. */
  predicate HasNonTextAuthor(e: Entry) {
    IsJson(e.name) && !AuthorOf(e.data).Str?
  }

  /** What search_books_by_author ends with: the titles found ("No books
      found by ..." when empty), or the file whose author could not be
      lower-cased. */
  datatype SearchOutcome = Found(titles: seq<Value>) | AuthorNotText(file: string)

  /** One step of the scan over the directory. */
  function Visit(found: seq<Value>, e: Entry, query: string): SearchOutcome {
    if !IsJson(e.name) then Found(found)
    else if HasNonTextAuthor(e) then AuthorNotText(e.name)
    else if Matches(e, query) then Found(found + [TitleOf(e)])
    else Found(found)
  }

  /** The outcome of scanning the files es in order. */
  function Scan(es: seq<Entry>, query: string): SearchOutcome
    decreases |es|
  {
    if es == [] then Found([])
    else
      match Scan(es[..|es| - 1], query)
      case AuthorNotText(f) => AuthorNotText(f)
      case Found(ts) => Visit(ts, es[|es| - 1], query)
  }

  /** ts holds, in order, the titles of the files at the positions idx, and
      these are exactly the ".json" files whose author matches. */
  ghost predicate ListsMatches(es: seq<Entry>, query: string, ts: seq<Value>, idx: seq<int>) {
    && |idx| == |ts|
    && Increasing(idx)
    && (forall k :: 0 <= k < |idx| ==>
          0 <= idx[k] < |es| && Matches(es[idx[k]], query) && ts[k] == TitleOf(es[idx[k]]))
    && (forall j :: 0 <= j < |es| && Matches(es[j], query) ==> j in idx)
  }

  /** Position i holds the first ".json" file whose author is not a string. */
  ghost predicate FirstNonText(es: seq<Entry>, i: int) {
    0 <= i < |es| && HasNonTextAuthor(es[i]) && forall j :: 0 <= j < i ==> !HasNonTextAuthor(es[j])
  }

  /** A completed search returns the title of every matching file and of no
      other, in directory order. */
  lemma {:induction false} ScanFound(es: seq<Entry>, query: string) returns (idx: seq<int>)
    requires Scan(es, query).Found?
    ensures ListsMatches(es, query, Scan(es, query).titles, idx)
    decreases |es|
  {
    if es == [] {
      idx := [];
    } else {
      var last := |es| - 1;
      var init := es[..last];
      assert Scan(init, query).Found?;
      var before := ScanFound(init, query);
      var ts, tsInit := Scan(es, query).titles, Scan(init, query).titles;
      forall k | 0 <= k < |before| ensures es[before[k]] == init[before[k]] {
      }
      if Matches(es[last], query) {
        idx := before + [last];
        assert ts == tsInit + [TitleOf(es[last])];
      } else {
        idx := before;
        assert ts == tsInit;
      }
      forall j | 0 <= j < |es| && Matches(es[j], query) ensures j in idx {
        if j < last {
          assert init[j] == es[j];
          assert j in before;
        }
      }
    }
  }

  /** The search stops with an error exactly when some ".json" file has an
      author that is not a string, and then it names the first such file. */
  lemma {:induction false} ScanAborts(es: seq<Entry>, query: string)
    ensures Scan(es, query).AuthorNotText? <==> exists i :: 0 <= i < |es| && HasNonTextAuthor(es[i])
    ensures Scan(es, query).AuthorNotText? ==>
      exists i :: FirstNonText(es, i) && Scan(es, query).file == es[i].name
    decreases |es|
  {
    if es != [] {
      var last := |es| - 1;
      var init := es[..last];
      ScanAborts(init, query);
      forall i | 0 <= i < last ensures es[i] == init[i] { }
      if Scan(init, query).AuthorNotText? {
        var i :| FirstNonText(init, i) && Scan(init, query).file == init[i].name;
        assert FirstNonText(es, i);
      } else if HasNonTextAuthor(es[last]) {
        assert FirstNonText(es, last);
      }
    }
  }

  /** Once the scan of a prefix has stopped, scanning more files changes nothing. */
  lemma {:induction false} ScanStopped(es: seq<Entry>, n: int, query: string)
    requires 0 <= n <= |es| && Scan(es[..n], query).AuthorNotText?
    ensures Scan(es, query) == Scan(es[..n], query)
    decreases |es|
  {
    if n < |es| {
      var init := es[..|es| - 1];
      assert init[..n] == es[..n];
      ScanStopped(init, n, query);
    } else {
      assert es[..n] == es;
    }
  }

  /** Scanning only the ".json" files gives the same outcome as scanning all. */
  lemma {:induction false} ScanJsonOnly(es: seq<Entry>, query: string)
    ensures Scan(JsonEntries(es), query) == Scan(es, query)
    decreases |es|
  {
    if es != [] {
      var init := es[..|es| - 1];
      var js := JsonEntries(es);
      ScanJsonOnly(init, query);
      if IsJson(es[|es| - 1].name) {
        assert js[..|js| - 1] == JsonEntries(init);
      }
    }
  }

  /** The search does not depend on the letter case of the query. */
  lemma {:induction false} ScanIgnoresQueryCase(es: seq<Entry>, query: string)
    ensures Scan(es, Lower(query)) == Scan(es, query)
    decreases |es|
  {
    LowerIdempotent(query);
    if es != [] {
      ScanIgnoresQueryCase(es[..|es| - 1], query);
    }
  }

  // ----- The Book class -----

  datatype LoadOutcome = Loaded(book: Book) | BookNotFound(file: string)

  class Book {
    var author: Value
    var title: Value
    var page: Value
    var isbn: Value

    constructor (author: Value, title: Value, page: Value, isbn: Value)
      ensures this.author == author && this.title == title
      ensures this.page == page && this.isbn == isbn
    {
      this.author := author;
      this.title := title;
      this.page := page;
      this.isbn := isbn;
    }

    /** save_to_file: dumps the four fields under filename, overwriting any
        file of that name; no other file changes. */
    method SaveToFile(dir: Directory, filename: string)
      requires dir.Valid()
      modifies dir
      ensures dir.Valid()
      ensures dir.entries == Written(old(dir.entries), filename, BookData(author, title, page, isbn))
    {
      var data := BookData(author, title, page, isbn);
      dir.Write(filename, data);
    }

    /** load_from_file: a fresh Book from the file's four keys, each missing
        key giving None; a not-found error when there is no such file. */
    static method LoadFromFile(dir: Directory, filename: string) returns (r: LoadOutcome)
      ensures r.BookNotFound? <==> !HasFile(dir.entries, filename)
      ensures r.BookNotFound? ==> r.file == filename
      ensures r.Loaded? ==> fresh(r.book) && Find(dir.entries, filename).Read?
      ensures r.Loaded? ==>
        var data := Find(dir.entries, filename).data;
        && r.book.author == Get(data, "Author") && r.book.title == Get(data, "Title")
        && r.book.page == Get(data, "Page") && r.book.isbn == Get(data, "ISBN")
    {
      var read := Find(dir.entries, filename);
      match read
      case FileNotFound(name) =>
        r := BookNotFound(name);
      case Read(data) =>
        var book := new Book(Get(data, "Author"), Get(data, "Title"), Get(data, "Page"), Get(data, "ISBN"));
        r := Loaded(book);
    }

    /** search_books_by_author: reads every ".json" file in directory order
        and collects the titles of those whose author matches. */
    static method SearchBooksByAuthor(dir: Directory, authorName: string) returns (r: SearchOutcome)
      requires dir.Valid()
      ensures r == Scan(dir.entries, authorName)
    {
      ghost var js := JsonEntries(dir.entries);
      ghost var idx := JsonEntriesSelect(dir.entries);
      var books := JsonFiles(dir.entries);
      var found: seq<Value> := [];
      var i := 0;
      while i < |books|
        invariant 0 <= i <= |books|
        invariant Scan(js[..i], authorName) == Found(found)
      {
        var bookFile := books[i];
        FindListed(dir.entries, idx[i]);
        var data := Find(dir.entries, bookFile).data;
        assert js[..i + 1][..i] == js[..i];
        assert Entry(bookFile, data) == js[i];
        var author := GetOr(data, "Author", Str(""));
        if !author.Str? {
          ScanStopped(js, i + 1, authorName);
          ScanJsonOnly(dir.entries, authorName);
          return AuthorNotText(bookFile);
        }
        if Lower(author.s) == Lower(authorName) {
          found := found + [GetOr(data, "Title", Str(Stem(bookFile)))];
        }
        i := i + 1;
      }
      assert js[..i] == js;
      ScanJsonOnly(dir.entries, authorName);
      r := Found(found);
    }
  }

  /** The "add" menu path: a book built from the four answers is saved to
      f"{title}.json". */
  method AddBook(dir: Directory, author: string, title: string, page: string, isbn: string)
    requires dir.Valid()
    modifies dir
    ensures dir.Valid()
    ensures dir.entries == Added(old(dir.entries), author, title, page, isbn)
  {
    var manage := new Book(Str(author), Str(title), Str(page), Str(isbn));
    manage.SaveToFile(dir, FileNameFor(title));
  }

  /** The directory after the "add" path saved a book. */
  function Added(es: seq<Entry>, author: string, title: string, page: string, isbn: string): seq<Entry> {
    Written(es, FileNameFor(title), BookData(Str(author), Str(title), Str(page), Str(isbn)))
  }

  /** Adding two books of the same title keeps only the second. */
  lemma SameTitleLastWins(es: seq<Entry>, title: string,
                          author1: string, page1: string, isbn1: string,
                          author2: string, page2: string, isbn2: string)
    ensures Added(Added(es, author1, title, page1, isbn1), author2, title, page2, isbn2)
         == Added(es, author2, title, page2, isbn2)
  {
    WrittenTwice(es, FileNameFor(title), BookData(Str(author1), Str(title), Str(page1), Str(isbn1)),
                 BookData(Str(author2), Str(title), Str(page2), Str(isbn2)));
  }

  /** Position i of es holds the file FileNameFor(title), with the book's data. */
  lemma AddedAt(es: seq<Entry>, author: string, title: string, page: string, isbn: string) returns (i: int)
    ensures var after := Added(es, author, title, page, isbn);
      0 <= i < |after| && after[i] == Entry(FileNameFor(title), BookData(Str(author), Str(title), Str(page), Str(isbn)))
  {
    var data := BookData(Str(author), Str(title), Str(page), Str(isbn));
    var after := Added(es, author, title, page, isbn);
    FindAfterWrite(es, FileNameFor(title), data, FileNameFor(title));
    var k :| FirstNamed(after, FileNameFor(title), k) && after[k].data == data;
    i := k;
  }

  /** After a book is added, list_books shows its title. */
  lemma AddedBookIsListed(es: seq<Entry>, author: string, title: string, page: string, isbn: string)
    ensures ListBooks(Added(es, author, title, page, isbn)).BooksListed?
    ensures title in ListBooks(Added(es, author, title, page, isbn)).names
  {
    var after := Added(es, author, title, page, isbn);
    var i := AddedAt(es, author, title, page, isbn);
    FileNameForTitle(title);
    var idx := ListBooksCorrect(after);
    assert !ListBooks(after).NoBooksFound? by { assert IsJson(after[i].name); }
    assert i in idx;
    var k :| 0 <= k < |idx| && idx[k] == i;
    assert ListBooks(after).names[k] == title;
  }

  /** After a book is added, a search for its author, in any letter case,
      that completes returns its title. */
  lemma AddedBookIsFound(es: seq<Entry>, author: string, title: string, page: string, isbn: string, query: string)
    requires Lower(author) == Lower(query)
    requires Scan(Added(es, author, title, page, isbn), query).Found?
    ensures Str(title) in Scan(Added(es, author, title, page, isbn), query).titles
  {
    var after := Added(es, author, title, page, isbn);
    var i := AddedAt(es, author, title, page, isbn);
    FileNameForTitle(title);
    var idx := ScanFound(after, query);
    assert Matches(after[i], query);
    assert i in idx;
    var k :| 0 <= k < |idx| && idx[k] == i;
    assert Scan(after, query).titles[k] == Str(title);
  }
}
