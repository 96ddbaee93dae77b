/** Which transcript the follower watches. */
module Transcripts {
  import opened Text
  import opened Utf8
  import opened Follower

  /** A directory entry; the time or the content is missing when the operating system refuses it. */
  datatype DirEntry = DirEntry(name: string, mtime: Option<real>, content: Option<seq<Byte>>)

  const HEAD_LIMIT := 20000

  /** At most the first 20000 characters of the first line. */
  function Head(content: seq<Byte>): Runes {
    var t := ReadBytes(content);
    var line := if LineEnd(t) == 0 then t else t[..LineEnd(t)];
    if |line| <= HEAD_LIMIT then line else line[..HEAD_LIMIT]
  }

  predicate Contains(t: Runes, marker: Runes) {
    marker <= t || (t != [] && Contains(t[1..], marker))
  }

  predicate Marked(e: DirEntry, marker: Runes) {
    EndsWith(e.name, ".jsonl") && e.mtime.Some? && e.content.Some? && Contains(Head(e.content.value), marker)
  }

  /** The newest marked transcript with a time above zero, the first of equals. */
  predicate Newest(listing: seq<DirEntry>, marker: Runes, i: nat) {
    && i < |listing| && Marked(listing[i], marker) && listing[i].mtime.value > 0.0
    && (forall j :: 0 <= j < |listing| && Marked(listing[j], marker) ==>
          listing[j].mtime.value <= listing[i].mtime.value &&
              (j < i ==> listing[j].mtime.value < listing[i].mtime.value))
  }

  /** No marked transcript among the first n entries has a time above m. */
  predicate NoneAbove(listing: seq<DirEntry>, marker: Runes, n: nat, m: real) {
    forall j :: 0 <= j < n <= |listing| && Marked(listing[j], marker) ==> listing[j].mtime.value <= m
  }

  /** The entry is marked, with a time above zero and above all marked entries before it. */
  predicate FirstOfItsTime(listing: seq<DirEntry>, marker: Runes, i: nat) {
    && i < |listing| && Marked(listing[i], marker) && listing[i].mtime.value > 0.0
    && forall j :: 0 <= j < i && Marked(listing[j], marker) ==> listing[j].mtime.value < listing[i].mtime.value
  }

  lemma NoneAboveMore(listing: seq<DirEntry>, marker: Runes, n: nat, m: real, higher: real)
    requires NoneAbove(listing, marker, n, m) && n < |listing| && m <= higher
    requires Marked(listing[n], marker) ==> listing[n].mtime.value <= higher
    ensures NoneAbove(listing, marker, n + 1, higher)
  {}

  lemma AboveAll(listing: seq<DirEntry>, marker: Runes, n: nat, m: real)
    requires NoneAbove(listing, marker, n, m) && n < |listing| && Marked(listing[n], marker)
    requires 0.0 <= m < listing[n].mtime.value
    ensures FirstOfItsTime(listing, marker, n)
  {}

  lemma NewestIs(listing: seq<DirEntry>, marker: Runes, i: nat)
    requires FirstOfItsTime(listing, marker, i)
    requires NoneAbove(listing, marker, |listing|, listing[i].mtime.value)
    ensures Newest(listing, marker, i)
  {}

  /** `find_transcript`: the loop skips an entry whose time is not above the best so far before it
      looks into the file. */
  method FindTranscript(listing: Option<seq<DirEntry>>, marker: Runes) returns (best: Option<string>)
    ensures best == None <==> listing == None || NoneAbove(listing.value, marker, |listing.value|, 0.0)
    ensures best.Some? ==> exists i: nat :: Newest(listing.value, marker, i) && listing.value[i].name == best.value
  {
    best := None;
    if listing == None { return; }
    var names := listing.value;
    var bestMtime := 0.0;
    ghost var at: nat := 0;
    var i := 0;
    while i < |names|
      invariant 0 <= i <= |names|
      invariant bestMtime >= 0.0 && NoneAbove(names, marker, i, bestMtime)
      invariant best == None ==> bestMtime == 0.0
      invariant best.Some? ==> at < i && FirstOfItsTime(names, marker, at)
      invariant best.Some? ==> names[at].name == best.value && names[at].mtime.value == bestMtime
    {
      var e := names[i];
      ghost var before := bestMtime;
      if EndsWith(e.name, ".jsonl") && e.mtime.Some? && e.mtime.value > bestMtime && e.content.Some? {
        if Contains(Head(e.content.value), marker) {
          AboveAll(names, marker, i, bestMtime);
          best, bestMtime, at := Some(e.name), e.mtime.value, i;
        }
      }
      NoneAboveMore(names, marker, i, before, bestMtime);
      i := i + 1;
    }
    if best.Some? { NewestIs(names, marker, at); }
  }
}
