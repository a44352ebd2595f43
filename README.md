# Book records of the personal library manager

This project models the record layer of the personal library manager in
`main.py`: the `Book` class that saves one book as a JSON file named after its
title, loads it back, lists the `.json` files of the working directory and
searches them by author.

The working directory is the manager's only database. Here it is a
`Directory` object (module `FileStore`) that holds an ordered sequence of
entries. Each entry is a file name and the JSON object stored in that file.
The order of the sequence is the order in which the directory listing returns
the files. The directory never holds two files of the same name
(`Directory.Valid`).

- `FileStore.Find` opens and parses a file. `FileStore.Written` is the
  directory after a file is opened for writing and a JSON object is dumped
  into it. An existing file keeps its place. A new file is added at the end.
- `Books.Book` has the four fields `author`, `title`, `page` and `isbn`.
  `SaveToFile` writes the map `{"Author", "Title", "Page", "ISBN"}`.
  `LoadFromFile` builds a fresh `Book` from that map with `dict.get`
  semantics: a missing key gives `None` (`Value.Null`). A missing file gives
  the not-found outcome, which the menu reports as "Book not found.".
- `Books.ListBooks` is `list_books`: the `.json` files in directory order,
  each without its last five characters, or "No books found." when there are
  none.
- `Books.Book.SearchBooksByAuthor` is `search_books_by_author`. It reads each
  `.json` file in directory order and compares `data.get("Author", "")`
  lower-cased with the query lower-cased. For each match it collects
  `data.get("Title", stem)`. It is proved equal to the specification
  `Books.Scan`. `ScanFound` states that a completed search returns exactly
  the matching files' titles, in order. `ScanAborts` states when the search
  stops with an error.
- `Books.AddBook` is the menu's "add" path. It saves the typed answers as
  strings under `<title>.json`, so two books of the same title collide and
  the last write wins (`SameTitleLastWins`).

JSON values are the datatype `FileStore.Value`. JSON `null` and Python `None`
are the same value, `Null`. So a key stored as `null` and a missing key both
load as `Null`, as they do in Python.

Two behaviours of main.py that the model keeps:
- Missing fields load as `None`, not as an empty value.
- An `Author` that is present but not a string (`null`, a number, a list)
  makes `.lower()` raise inside the search loop. The exception ends the
  whole search, and since the menu at main.py:132-134 does not catch it, the
  program ends too. The model returns `AuthorNotText(file)` for that first
  file. No file is skipped.

## Model

| member | source | states |
|---|---|---|
| `FileStore.Find` | main.py:41-44 | reading a file succeeds exactly when a file of that name exists, and then gives that file's content; otherwise it is a not-found error for that name |
| `FileStore.WrittenShape` | main.py:26-28 | `Written`, the directory after a write: writing replaces the content of the file of that name in place and changes no other file; when no such file exists, the new file is appended and nothing else changes |
| `FileStore.FindAfterWrite` | main.py:26-28 | after writing, the written file reads back as the data written and every other name reads as before |
| `FileStore.WrittenKeepsNamesUnique` | main.py:26-28 | writing never makes two files share a name |
| `FileStore.WrittenTwice` | main.py:26-28 | writing the same name twice leaves the directory exactly as the second write alone would |
| `FileStore.FindListed` | main.py:63-66 | in a directory with distinct names, reading a listed file gives that file's content |
| `FileStore.Directory.Write` | main.py:26-28 | the directory becomes `Written(old, name, data)` and keeps distinct names |
| `Books.FileNameForTitle` | main.py:115 | the file `<title>.json` ends in `.json` and is displayed as `title` again |
| `Books.BookData` | main.py:15-20 | the saved map has exactly the keys `Author`, `Title`, `Page`, `ISBN` |
| `Books.LoadWithMissingKeys` | main.py:34-39 | loading a saved map from which any set of the four keys was removed gives `None` for exactly the fields keyed by the removed keys and the saved value for the others |
| `Books.LoadInvertsSave` | main.py:14-39 | reading the four keys of the saved map gives back the four fields of the book |
| `Books.SaveLoadRoundTrip` | main.py:14-44 | a book saved into any directory reads back from its file with the same author, title, page and isbn |
| `Books.LowerIdempotent` | main.py:67 | `Lower`, the `.lower()` of the comparison (ASCII letters only): lower-casing a lower-cased string changes nothing |
| `Books.JsonEntriesSelect` | main.py:49 | the `.json` selection holds exactly the files whose names end in `.json`, in directory order |
| `Books.ListBooksCorrect` | main.py:47-55 | `ListBooks`, the outcome of list_books: "No books found." exactly when no file ends in `.json`; otherwise the listed names are those files, in directory order, each without its last five characters, and no others |
| `Books.ScanFound` | main.py:63-68 | `Scan` (built from the one-file step `Visit`), the outcome of the loop: a completed search returns, in directory order, one entry per `.json` file whose author lower-cased equals the query lower-cased, and no others; each entry is the file's `Title`, or the file name without `.json` when `Title` is missing |
| `Books.ScanAborts` | main.py:65-67 | the search ends with an error exactly when some `.json` file has an `Author` that is present and not a string, and the error names the first such file |
| `Books.ScanStopped` | main.py:65-67 | once an error has ended the scan, later files do not change the outcome |
| `Books.ScanJsonOnly` | main.py:63-66 | files not ending in `.json` play no part in the search |
| `Books.ScanIgnoresQueryCase` | main.py:67 | the search outcome does not depend on the letter case of the query |
| `Books.Book.constructor` | main.py:6-10 | the new book holds the four given fields |
| `Books.Book.SaveToFile` | main.py:14-28 | the directory becomes the old one with the file `filename` holding the book's four-key map, and the directory keeps distinct names |
| `Books.Book.LoadFromFile` | main.py:31-44 | not found exactly when no file has that name; otherwise a fresh book whose four fields are `data.get` of the four keys of that file, so a missing key gives `None` for that field (see `LoadWithMissingKeys`) |
| `Books.Book.SearchBooksByAuthor` | main.py:58-74 | the outcome of the loop equals `Scan` over the directory: the titles found, or the error of the first file whose author is not a string |
| `Books.AddBook` | main.py:108-115 | the directory becomes the old one with `<title>.json` holding the typed author, title, page and isbn as strings |
| `Books.SameTitleLastWins` | main.py:115 | adding two books with the same title leaves the directory the second addition alone would give |
| `Books.AddedAt` | main.py:115 | after an addition the directory holds the file `<title>.json` with the book's map |
| `Books.AddedBookIsListed` | main.py:47-55 | after a book is added, the listing is not empty and shows its title |
| `Books.AddedBookIsFound` | main.py:58-68 | after a book is added, a completed search for its author in any letter case returns its title |

## Left out

- The login gate (its fixed user table and three attempts) and the menu loop with `input` and `print` (main.py:76-138). The "add" path is modelled as `AddBook`. The "view" path is `LoadFromFile` on `<name>.json`.
- The `asyncio` executor offloading. Every operation is modelled as a synchronous step, because the shell runs them one at a time.
- The real file system. The listing order of `os.listdir` is taken as the order of the entry sequence. Where a newly created file appears in that order is chosen by the operating system; the model appends it at the end.
- Concurrent changes to the directory by other processes, and a listed file that disappears before it is read.
- The JSON text format (`indent=4`, UTF-8). Files hold parsed JSON objects. JSON numbers are integers only; floating point is left out. A file whose text is not valid JSON, or whose top level is not an object, is not modelled (`json.load` would raise, or `.get` would fail).
- A directory (not a file) whose name ends in `.json`, and titles containing path separators.
- Unicode case folding: Python's `str.lower` folds the whole of Unicode, while the model's `Lower` folds the ASCII letters `A`-`Z` only.
- The console text that `list_books`, `search_books_by_author` and `save_to_file` print. The model returns the listed names, the found titles and the outcomes instead.
