/** src/dns/DNSRequestTracker.java: the pending recursive queries of the dns package server,
    a HashMap from url to the request waiting on it. Java's HashMap may map a key to null
    (updateRequest moves whatever remove returned, null included), so a value is an Option. */
module RequestTracker {
  import opened JavaText

  /** A request as the dns package server keeps it: the name asked for and who asked. */
  datatype DnsRequest = DnsRequest(url: string, senderIp: string, senderPort: int)

  type Pending = map<string, Option<DnsRequest>>

  /** Map.get / the value remove and put return: None for an absent key and for a null value. */
  function Held(db: Pending, key: string): Option<DnsRequest> {
    if key in db then db[key] else None
  }

  /** The map after remove(from) and then put(to, what remove returned). */
  function Rekeyed(db: Pending, from: string, to: string): (r: Pending)
    ensures to in r && r[to] == Held(db, from)
    ensures from != to ==> from !in r
    ensures forall k :: k != from && k != to ==> Held(r, k) == Held(db, k) && (k in r <==> k in db)
  {
    (db - {from})[to := Held(db, from)]
  }

  /** Re-keying to the same name keeps its request, and binds an absent name to null. */
  lemma RekeyedSameKey(db: Pending, k: string)
    ensures Rekeyed(db, k, k) == db[k := Held(db, k)]
  {
  }

  /** Moving an entry and moving it back restores every binding of the map, except that an
      absent source comes back bound to null. */
  lemma RekeyedBack(db: Pending, from: string, to: string)
    requires from != to && to !in db
    ensures Rekeyed(Rekeyed(db, from, to), to, from) == db[from := Held(db, from)]
  {
    var r := Rekeyed(Rekeyed(db, from, to), to, from);
    assert r.Keys == (db[from := Held(db, from)]).Keys;
  }

  class Tracker {
    var db: Pending

    /** A new tracker has nothing pending. */
    constructor()
      ensures db == map[]
    {
      db := map[];
    }

    /** updateRequest: move the request waiting on from so that it waits on to; returns what
        was bound to to after the removal (None also for null). */
    method UpdateRequest(from: string, to: string) returns (previous: Option<DnsRequest>)
      modifies this
      ensures db == Rekeyed(old(db), from, to)
      ensures previous == if from == to then None else Held(old(db), to)
    {
      var moved := Held(db, from);
      db := db - {from};
      previous := Held(db, to);
      db := db[to := moved];
    }

    /** addRequest: url now waits with this request (last write wins); returns the earlier one. */
    method AddRequest(url: string, request: DnsRequest) returns (previous: Option<DnsRequest>)
      modifies this
      ensures db == old(db)[url := Some(request)]
      ensures previous == Held(old(db), url)
    {
      previous := Held(db, url);
      db := db[url := Some(request)];
    }
  }
}
