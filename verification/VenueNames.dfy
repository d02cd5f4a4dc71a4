/**
 Venue names inside check summaries of arbiter/readiness.py: printed as a sorted
 comma-separated list after a colon, and parsed back into a set of venues.
 */
module VenueNames {
  import opened Text

  predicate Before(a: string, b: string) {
    if a == "" then true
    else if b == "" then false
    else if a[0] != b[0] then a[0] < b[0]
    else Before(a[1..], b[1..])
  }

  function InsertName(n: string, names: seq<string>): seq<string> {
    if names == [] || Before(n, names[0]) then [n] + names else [names[0]] + InsertName(n, names[1..])
  }

  /** sorted(names) */
  function SortNames(names: seq<string>): seq<string> {
    if names == [] then [] else InsertName(names[0], SortNames(names[1..]))
  }

  lemma {:induction false} InsertNameMembers(n: string, names: seq<string>, x: string)
    ensures x in InsertName(n, names) <==> x == n || x in names
  {
    if names == [] || Before(n, names[0]) {
    } else {
      InsertNameMembers(n, names[1..], x);
      assert names == [names[0]] + names[1..];
    }
  }

  lemma {:induction false} SortNamesMembers(names: seq<string>, x: string)
    ensures x in SortNames(names) <==> x in names
  {
    if names != [] {
      SortNamesMembers(names[1..], x);
      InsertNameMembers(names[0], SortNames(names[1..]), x);
      assert names == [names[0]] + names[1..];
    }
  }

  lemma {:induction false} BeforeIsTotal(a: string, b: string)
    ensures Before(a, b) || Before(b, a)
    ensures Before(a, b) && Before(b, a) ==> a == b
  {
    if a != "" && b != "" && a[0] == b[0] {
      BeforeIsTotal(a[1..], b[1..]);
      assert a == [a[0]] + a[1..] && b == [b[0]] + b[1..];
    }
  }

  lemma {:induction false} BeforeIsTransitive(a: string, b: string, c: string)
    requires Before(a, b) && Before(b, c)
    ensures Before(a, c)
  {
    if a != "" && a[0] == b[0] == c[0] { BeforeIsTransitive(a[1..], b[1..], c[1..]); }
  }

  predicate InOrder(names: seq<string>) {
    forall i :: 0 < i < |names| ==> Before(names[i - 1], names[i])
  }

  lemma {:induction false} InsertNameInOrder(n: string, names: seq<string>)
    requires InOrder(names)
    ensures InOrder(InsertName(n, names)) && multiset(InsertName(n, names)) == multiset(names) + multiset{n}
    ensures var all := InsertName(n, names); all != [] && (all[0] == n || (names != [] && all[0] == names[0]))
  {
    if names == [] || Before(n, names[0]) {
    } else {
      BeforeIsTotal(n, names[0]);
      assert forall i :: 0 < i < |names[1..]| ==> names[1..][i] == names[i + 1] && names[1..][i - 1] == names[i];
      InsertNameInOrder(n, names[1..]);
      assert names == [names[0]] + names[1..];
      if |names| > 1 { assert Before(names[0], names[1]); }
    }
  }

  /** The names printed are those given, in order. */
  lemma {:induction false} SortNamesInOrder(names: seq<string>)
    ensures InOrder(SortNames(names)) && multiset(SortNames(names)) == multiset(names)
  {
    if names != [] {
      SortNamesInOrder(names[1..]);
      InsertNameInOrder(names[0], SortNames(names[1..]));
      assert names == [names[0]] + names[1..];
    }
  }

  /** f"{title}: {', '.join(sorted(names))}" */
  function Announce(title: string, names: seq<string>): string {
    title + ": " + Join(SortNames(names), ", ")
  }

  /** The venue a piece of text stands for. */
  function Venue(piece: string): string {
    Lower(Strip(piece))
  }

  function Venues(pieces: seq<string>): set<string> {
    set p | p in pieces && Strip(p) != "" :: Venue(p)
  }

  /** The names after the last colon of a summary. */
  function ParseVenues(summary: string): set<string> {
    Venues(Split(summary[LastIndex(summary, ':') + 1..], ','))
  }

  /** A name that survives printing: not blank, no comma, no colon. */
  predicate Plain(name: string) {
    Strip(name) != "" && ',' !in name && ':' !in name
  }

  function Spaced(names: seq<string>): seq<string> {
    if names == [] then [] else [" " + names[0]] + Spaced(names[1..])
  }

  lemma {:induction false} SpacedJoin(names: seq<string>)
    requires names != []
    ensures Spaced(names) != [] && Join(Spaced(names), ",") == " " + Join(names, ", ")
  {
    if |names| > 1 {
      SpacedJoin(names[1..]);
      assert Spaced(names)[1..] == Spaced(names[1..]);
      assert |Spaced(names)| > 1;
      assert " " + names[0] + "," + (" " + Join(names[1..], ", ")) == " " + (names[0] + ", " + Join(names[1..], ", "));
    }
  }

  lemma {:induction false} SpacedMembers(names: seq<string>, p: string)
    ensures p in Spaced(names) <==> p != "" && p[0] == ' ' && p[1..] in names
  {
    if names != [] {
      SpacedMembers(names[1..], p);
      assert names == [names[0]] + names[1..];
      if p != "" && p[0] == ' ' { assert p == " " + p[1..]; }
    }
  }

  lemma {:induction false} NoColonInJoin(names: seq<string>, sep: string)
    requires ':' !in sep && forall n :: n in names ==> ':' !in n
    ensures ':' !in Join(names, sep)
  {
    if |names| > 1 {
      assert names[0] in names;
      NoColonInJoin(names[1..], sep);
    } else if |names| == 1 {
      assert names[0] in names;
    }
  }

  lemma AfterLastColon(title: string, tail: string)
    requires ':' !in tail
    ensures var s := title + ":" + tail; s[LastIndex(s, ':') + 1..] == tail
  {
    var s := title + ":" + tail;
    forall j | |title| < j < |s| ensures s[j] != ':' { assert s[j] == tail[j - |title| - 1]; }
    LastIndexIs(s, ':', |title|);
  }

  /** Parsing an announcement gives back the venues announced. */
  lemma ParseAnnounce(title: string, names: seq<string>)
    requires names != [] && forall n :: n in names ==> Plain(n)
    ensures ParseVenues(Announce(title, names)) == Venues(names)
    ensures Venues(names) != {}
  {
    var sorted := SortNames(names);
    forall n ensures n in sorted <==> n in names { SortNamesMembers(names, n); }
    assert sorted != [] by { assert names[0] in sorted; }
    var tail := " " + Join(sorted, ", ");
    NoColonInJoin(sorted, ", ");
    assert title + ": " + Join(sorted, ", ") == title + ":" + tail;
    AfterLastColon(title, tail);
    SpacedJoin(sorted);
    forall p | p in Spaced(sorted) ensures ',' !in p { SpacedMembers(sorted, p); }
    SplitJoin(Spaced(sorted), ',');
    SpacedVenues(sorted);
    SameVenues(sorted, names);
    assert names[0] in names && Venue(names[0]) in Venues(names);
  }

  lemma SameVenues(a: seq<string>, b: seq<string>)
    requires forall n :: n in a <==> n in b
    ensures Venues(a) == Venues(b)
  {
  }

  lemma SpacedVenues(names: seq<string>)
    ensures Venues(Spaced(names)) == Venues(names)
  {
    forall p | p in Spaced(names) && Strip(p) != "" ensures Venue(p) in Venues(names) {
      SpacedMembers(names, p);
      assert Strip(p) == Strip(p[1..]);
    }
    forall n | n in names && Strip(n) != "" ensures Venue(n) in Venues(Spaced(names)) {
      var p := " " + n;
      assert p[1..] == n;
      SpacedMembers(names, p);
      assert Strip(p) == Strip(n);
    }
  }

  lemma VenuesOfOne(s: string)
    requires Strip(s) != ""
    ensures Venues([s]) == {Venue(s)}
  {
    assert s in [s];
  }

  /** A summary without colon or comma names itself. */
  lemma ParsePlain(summary: string)
    requires Plain(summary)
    ensures ParseVenues(summary) == {Venue(summary)}
  {
    SplitFromPlain(summary, ',', "");
    assert "" + summary == summary;
    VenuesOfOne(summary);
  }
}
