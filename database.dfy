/** src/dns/db/DNSDatabase.java and its loader in src/dns/DNS.java: entries are stored under the
    name exactly as given, and looked up under the lower-cased name, with an empty entry for a
    miss. */
module DnsDatabase {
  import opened JavaText

  /** DBEntry: a row of the database. */
  datatype DbEntry = DbEntry(url: string, kind: string, entry: string)

  /** What findEntry returns on a miss. */
  const EMPTY: DbEntry := DbEntry("", "", "")

  type Entries = map<string, DbEntry>

  /** findEntry's reading of the map: getOrDefault(url.toLowerCase(), EMPTY). */
  function Find(db: Entries, url: string): (e: DbEntry)
    ensures ToLower(url) in db ==> e == db[ToLower(url)]
    ensures ToLower(url) !in db ==> e == EMPTY
  {
    if ToLower(url) in db then db[ToLower(url)] else EMPTY
  }

  lemma LowerHasNoUpper(s: string)
    ensures !HasUpper(ToLower(s))
  {
    var r := ToLower(s);
    forall i | 0 <= i < |r|
      ensures !('A' <= r[i] <= 'Z')
    {
      assert r[i] == ToLowerChar(s[i]);
    }
  }

  lemma LowerIdempotent(s: string)
    ensures ToLower(ToLower(s)) == ToLower(s)
  {
  }

  /** An entry stored under a name with an upper-case letter is never found: dropping it
      changes no lookup. */
  lemma UppercaseKeyNeverFound(db: Entries, k: string, url: string)
    requires HasUpper(k)
    ensures Find(db, url) == Find(db - {k}, url)
  {
    LowerHasNoUpper(url);
  }

  /** The lookup ignores case: a name and its lower-case form find the same entry. */
  lemma FindIgnoresCase(db: Entries, url: string)
    ensures Find(db, url) == Find(db, ToLower(url))
  {
    LowerIdempotent(url);
  }

  /** The map populatedDatabaseFromFile builds from the (name, type, entry) tokens of each
      line, every token lower-cased; a later line for the same name wins. */
  function Loaded(lines: seq<(string, string, string)>): (db: Entries)
    ensures db.Keys == set i | 0 <= i < |lines| :: ToLower(lines[i].0)
  {
    if |lines| == 0 then map[]
    else
      var init := lines[..|lines| - 1];
      var (url, kind, entry) := lines[|lines| - 1];
      assert forall i :: 0 <= i < |init| ==> init[i] == lines[i];
      assert (set i | 0 <= i < |lines| :: ToLower(lines[i].0))
          == (set i | 0 <= i < |init| :: ToLower(init[i].0)) + {ToLower(url)};
      Loaded(init)[ToLower(url) := DbEntry(ToLower(url), ToLower(kind), ToLower(entry))]
  }

  /** Every loaded entry sits under its own lower-case name and is lower case throughout. */
  lemma {:induction false} LoadedIsLowerCase(lines: seq<(string, string, string)>)
    ensures forall k :: k in Loaded(lines) ==>
              && Loaded(lines)[k].url == k && !HasUpper(k)
              && !HasUpper(Loaded(lines)[k].kind) && !HasUpper(Loaded(lines)[k].entry)
  {
    if |lines| > 0 {
      LoadedIsLowerCase(lines[..|lines| - 1]);
      var (url, kind, entry) := lines[|lines| - 1];
      LowerHasNoUpper(url);
      LowerHasNoUpper(kind);
      LowerHasNoUpper(entry);
    }
  }

  /** A loaded line is found under any casing of its name, unless a later line has the same
      name. */
  lemma {:induction false} LoadedLineFound(lines: seq<(string, string, string)>, i: nat,
                                           url: string)
    requires i < |lines| && ToLower(url) == ToLower(lines[i].0)
    requires forall j :: i < j < |lines| ==> ToLower(lines[j].0) != ToLower(url)
    ensures Find(Loaded(lines), url)
         == DbEntry(ToLower(lines[i].0), ToLower(lines[i].1), ToLower(lines[i].2))
    decreases |lines|
  {
    if i < |lines| - 1 {
      var init := lines[..|lines| - 1];
      assert forall j :: i < j < |init| ==> init[j] == lines[j];
      LoadedLineFound(init, i, url);
    }
  }

  class Database {
    var db: Entries

    /** A new database is empty. */
    constructor()
      ensures db == map[]
    {
      db := map[];
    }

    /** addEntry: store the entry under url as given (no lower-casing here); returns the entry
        it replaced. */
    method AddEntry(url: string, kind: string, entry: string) returns (previous: Option<DbEntry>)
      modifies this
      ensures db == old(db)[url := DbEntry(url, kind, entry)]
      ensures previous == if url in old(db) then Some(old(db)[url]) else None
    {
      previous := if url in db then Some(db[url]) else None;
      db := db[url := DbEntry(url, kind, entry)];
    }

    /** findEntry: a read of the map that never fails and never returns null. */
    function FindEntry(url: string): (e: DbEntry)
      reads this
      ensures e == Find(db, url)
    {
      Find(db, url)
    }
  }

  /** populatedDatabaseFromFile's loop over the tokenised lines. */
  method Populate(lines: seq<(string, string, string)>) returns (d: Database)
    ensures fresh(d) && d.db == Loaded(lines)
  {
    d := new Database();
    for n := 0 to |lines|
      invariant d.db == Loaded(lines[..n])
    {
      var (url, kind, entry) := lines[n];
      assert lines[..n + 1][..n] == lines[..n];
      var _ := d.AddEntry(ToLower(url), ToLower(kind), ToLower(entry));
    }
    assert lines[..|lines|] == lines;
  }
}
