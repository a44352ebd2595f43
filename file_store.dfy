/** The working directory that the book manager uses as its database.
    Every record is one file holding a parsed JSON document; the directory is
    an ordered list of files, the order being the one a directory listing gives. */
module FileStore {

  /** A parsed JSON value, as json.load returns it (numbers are integers here). */
  datatype Value =
    | Null
    | Bool(b: bool)
    | Num(n: int)
    | Str(s: string)
    | Arr(items: seq<Value>)
    | Obj(members: map<string, Value>)

  /** The content of a record file: one JSON object. */
  type Data = map<string, Value>

  /** One file of the directory. */
  datatype Entry = Entry(name: string, data: Data)

  /** What opening a file for reading and parsing it gives. */
  datatype ReadResult = Read(data: Data) | FileNotFound(name: string)

  predicate HasFile(es: seq<Entry>, name: string) {
    exists i :: 0 <= i < |es| && es[i].name == name
  }

  /** A directory never holds two files of the same name. */
  predicate UniqueNames(es: seq<Entry>) {
    forall i, j :: 0 <= i < j < |es| ==> es[i].name != es[j].name
  }

  /** Position k holds the first file called name. */
  predicate FirstNamed(es: seq<Entry>, name: string, k: int) {
    0 <= k < |es| && es[k].name == name && forall j :: 0 <= j < k ==> es[j].name != name
  }

  /** Opening name for reading and parsing it: the content of the file of
      that name, or a not-found error when there is none. */
  function Find(es: seq<Entry>, name: string): (r: ReadResult)
    ensures r.Read? <==> HasFile(es, name)
    ensures r.FileNotFound? ==> r.name == name
    ensures r.Read? ==> exists k :: FirstNamed(es, name, k) && es[k].data == r.data
  {
    if es == [] then FileNotFound(name)
    else if es[0].name == name then
      assert FirstNamed(es, name, 0);
      Read(es[0].data)
    else
      var r := Find(es[1..], name);
      assert HasFile(es, name) ==> HasFile(es[1..], name) by {
        if HasFile(es, name) {
          var i :| 0 <= i < |es| && es[i].name == name;
          assert es[1..][i - 1].name == name;
        }
      }
      assert r.Read? ==> exists k :: FirstNamed(es, name, k) && es[k].data == r.data by {
        if r.Read? {
          var k :| FirstNamed(es[1..], name, k) && es[1..][k].data == r.data;
          assert FirstNamed(es, name, k + 1);
        }
      }
      r
  }

  /** The directory after the file called name is opened for writing and data
      is dumped into it: an existing file keeps its place, a new one is added. */
  function Written(es: seq<Entry>, name: string, data: Data): seq<Entry> {
    if es == [] then [Entry(name, data)]
    else if es[0].name == name then [Entry(name, data)] + es[1..]
    else [es[0]] + Written(es[1..], name, data)
  }

  /** Writing replaces the first file of that name and nothing else, or adds
      the file at the end when none has that name. */
  lemma {:induction false} WrittenShape(es: seq<Entry>, name: string, data: Data)
    ensures !HasFile(es, name) ==> Written(es, name, data) == es + [Entry(name, data)]
    ensures forall k :: FirstNamed(es, name, k) ==> Written(es, name, data) == es[k := Entry(name, data)]
  {
    if es == [] {
    } else if es[0].name == name {
      assert HasFile(es, name) by { assert es[0].name == name; }
      forall k | FirstNamed(es, name, k)
        ensures Written(es, name, data) == es[k := Entry(name, data)]
      {
        assert k == 0;
      }
    } else {
      var rest := es[1..];
      WrittenShape(rest, name, data);
      if !HasFile(es, name) {
        forall i | 0 <= i < |rest| ensures rest[i].name != name {
          assert rest[i] == es[i + 1];
        }
        assert es == [es[0]] + rest;
      }
      forall k | FirstNamed(es, name, k)
        ensures Written(es, name, data) == es[k := Entry(name, data)]
      {
        forall j | 0 <= j < k - 1 ensures rest[j].name != name {
          assert rest[j] == es[j + 1];
        }
        assert FirstNamed(rest, name, k - 1);
        assert es == [es[0]] + rest;
      }
    }
  }

  /** After writing, the file written reads back as the data written, and
      every other file reads as before. */
  lemma {:induction false} FindAfterWrite(es: seq<Entry>, name: string, data: Data, other: string)
    ensures Find(Written(es, name, data), other) == if other == name then Read(data) else Find(es, other)
  {
    if es != [] && es[0].name != name {
      FindAfterWrite(es[1..], name, data, other);
      assert Written(es, name, data)[1..] == Written(es[1..], name, data);
    }
  }

  /** Writing keeps the file names of a directory distinct. */
  lemma WrittenKeepsNamesUnique(es: seq<Entry>, name: string, data: Data)
    requires UniqueNames(es)
    ensures UniqueNames(Written(es, name, data))
  {
    WrittenShape(es, name, data);
    if HasFile(es, name) {
      var k :| 0 <= k < |es| && es[k].name == name;
      assert FirstNamed(es, name, k);
    }
  }

  /** Writing the same name twice leaves the directory as the second write
      alone would: the last write wins. */
  lemma {:induction false} WrittenTwice(es: seq<Entry>, name: string, first: Data, second: Data)
    ensures Written(Written(es, name, first), name, second) == Written(es, name, second)
  {
    if es != [] && es[0].name != name {
      WrittenTwice(es[1..], name, first, second);
    }
  }

  /** In a directory with distinct names, reading any file gives its content. */
  lemma FindListed(es: seq<Entry>, i: int)
    requires UniqueNames(es) && 0 <= i < |es|
    ensures Find(es, es[i].name) == Read(es[i].data)
  {
  }

  /** The current working directory, which the program reads and writes. */
  class Directory {
    var entries: seq<Entry>

    ghost predicate Valid()
      reads this
    {
      UniqueNames(entries)
    }

    constructor ()
      ensures Valid() && entries == []
    {
      entries := [];
    }

    /** open(name, "w") followed by json.dump(data, ...). */
    method Write(name: string, data: Data)
      requires Valid()
      modifies this
      ensures Valid()
      ensures entries == Written(old(entries), name, data)
    {
      WrittenKeepsNamesUnique(entries, name, data);
      entries := Written(entries, name, data);
    }
  }
}
