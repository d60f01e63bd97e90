/** The order of names and the listings of a spool: every spool has exactly one. */
module Listings {
  import opened FrameNames
  import opened Transfer

  lemma {:induction false} LessIsTransitive(a: string, b: string, c: string)
    requires Less(a, b) && Less(b, c)
    ensures Less(a, c)
  {
    if a != "" && a[0] == b[0] == c[0] {
      LessIsTransitive(a[1..], b[1..], c[1..]);
    }
  }

  lemma {:induction false} LessIsTotal(a: string, b: string)
    ensures a == b || Less(a, b) || Less(b, a)
  {
    if a != "" && b != "" && a[0] == b[0] {
      LessIsTotal(a[1..], b[1..]);
      assert a == [a[0]] + a[1..] && b == [b[0]] + b[1..];
    }
  }

  ghost predicate Sorted(listing: seq<FrameId>)
  {
    forall i, j :: 0 <= i < j < |listing| ==> Less(NameOf(listing[i]), NameOf(listing[j]))
  }

  lemma SortedIsDistinct(listing: seq<FrameId>)
    requires Sorted(listing)
    ensures forall i, j :: 0 <= i < j < |listing| ==> listing[i] != listing[j]
  {
    forall i, j | 0 <= i < j < |listing|
      ensures listing[i] != listing[j]
    {
      NotLessThanItself(NameOf(listing[i]));
    }
  }

  lemma RestIsListing(listing: seq<FrameId>, spool: map<FrameId, Content>)
    requires IsListing(listing, spool) && listing != []
    ensures IsListing(listing[1..], spool - {listing[0]})
  {
    assert Sorted(listing);
    SortedIsDistinct(listing);
    forall id
      ensures id in listing[1..] <==> id in spool - {listing[0]}
    {
      if id in listing {
        var i :| 0 <= i < |listing| && listing[i] == id;
        if i > 0 {
          assert listing[1..][i - 1] == id;
        }
      }
    }
  }

  lemma FirstIsFirst(a: seq<FrameId>, b: seq<FrameId>, spool: map<FrameId, Content>)
    requires IsListing(a, spool) && IsListing(b, spool) && a != [] && b != []
    ensures a[0] == b[0]
  {
    if a[0] != b[0] {
      assert a[0] in b && b[0] in a;
      var i :| 0 <= i < |b| && b[i] == a[0];
      var j :| 0 <= j < |a| && a[j] == b[0];
      LessIsTransitive(NameOf(a[0]), NameOf(b[0]), NameOf(a[0]));
      NotLessThanItself(NameOf(a[0]));
    }
  }

  lemma FirstIsListed(listing: seq<FrameId>)
    ensures listing != [] ==> listing[0] in listing
  {
  }

  lemma {:induction false} ListingIsUnique(a: seq<FrameId>, b: seq<FrameId>, spool: map<FrameId, Content>)
    requires IsListing(a, spool) && IsListing(b, spool)
    ensures a == b
    decreases |a|
  {
    FirstIsListed(a);
    FirstIsListed(b);
    if a != [] {
      FirstIsFirst(a, b, spool);
      RestIsListing(a, spool);
      RestIsListing(b, spool);
      ListingIsUnique(a[1..], b[1..], spool - {a[0]});
    }
  }

  lemma {:induction false} Inserted(listing: seq<FrameId>, id: FrameId) returns (more: seq<FrameId>)
    requires Sorted(listing) && forall i :: 0 <= i < |listing| ==> NameOf(listing[i]) != NameOf(id)
    ensures Sorted(more) && forall x :: x in more <==> x in listing || x == id
  {
    if listing == [] {
      more := [id];
    } else {
      LessIsTotal(NameOf(id), NameOf(listing[0]));
      if Less(NameOf(id), NameOf(listing[0])) {
        more := [id] + listing;
        forall j | 0 < j < |more|
          ensures Less(NameOf(id), NameOf(more[j]))
        {
          if j > 1 {
            LessIsTransitive(NameOf(id), NameOf(listing[0]), NameOf(listing[j - 1]));
          }
        }
      } else {
        var rest := Inserted(listing[1..], id);
        more := [listing[0]] + rest;
        FrontIsLess(listing, id, rest);
        assert listing == [listing[0]] + listing[1..];
      }
    }
  }

  lemma FrontIsLess(listing: seq<FrameId>, id: FrameId, rest: seq<FrameId>)
    requires listing != [] && Sorted(listing) && Less(NameOf(listing[0]), NameOf(id))
    requires Sorted(rest) && forall x :: x in rest <==> x in listing[1..] || x == id
    ensures Sorted([listing[0]] + rest)
  {
    forall j | 0 <= j < |rest|
      ensures Less(NameOf(listing[0]), NameOf(rest[j]))
    {
      assert rest[j] in rest;
      if rest[j] != id {
        var i :| 0 <= i < |listing[1..]| && listing[1..][i] == rest[j];
        assert listing[i + 1] == rest[j];
      }
    }
  }

  /** Every spool of frames with 64-bit numbers can be listed. */
  lemma {:induction false} ListingExists(spool: map<FrameId, Content>) returns (listing: seq<FrameId>)
    requires forall id :: id in spool ==> id.sequence < SEQUENCE_LIMIT
    ensures IsListing(listing, spool)
    decreases |spool|
  {
    if spool == map[] {
      listing := [];
    } else {
      var id :| id in spool;
      var rest := ListingExists(spool - {id});
      forall i | 0 <= i < |rest|
        ensures NameOf(rest[i]) != NameOf(id)
      {
        assert rest[i] in rest;
        if NameOf(rest[i]) == NameOf(id) {
          NamesAreUnique(rest[i].session, rest[i].sequence, id.session, id.sequence);
        }
      }
      listing := Inserted(rest, id);
    }
  }
}
