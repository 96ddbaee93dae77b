/** The transcript follower: a reader that polls a growing file from an offset it computes by
    re-encoding the lines it has read. */
module Follower {
  import opened Text
  import opened Utf8

  const LF: nat := 10
  const CR: nat := 13

  // ---------- complete lines ----------

  /** The length of the first complete line, or 0 when there is none. */
  function LineEnd(t: seq<nat>): (n: nat)
    ensures n <= |t|
    ensures n > 0 ==> t[n - 1] == LF
  {
    if t == [] then 0
    else if t[0] == LF then 1
    else var m := LineEnd(t[1..]); if m == 0 then 0 else m + 1
  }

  /** The complete lines, each with its line feed. */
  function Lines(t: seq<nat>): seq<seq<nat>> {
    var n := LineEnd(t);
    if n == 0 then [] else [t[..n]] + Lines(t[n..])
  }

  /** The length of all complete lines together. */
  function Complete(t: seq<nat>): (n: nat)
    ensures n <= |t|
  {
    var n := LineEnd(t);
    if n == 0 then 0 else n + Complete(t[n..])
  }

  /** All complete lines in a row. */
  function Whole(t: seq<nat>): seq<nat> {
    var n := LineEnd(t);
    if n == 0 then [] else t[..n] + Whole(t[n..])
  }

  lemma {:induction false} WholeIs(t: seq<nat>)
    ensures Whole(t) == t[..Complete(t)]
    decreases |t|
  {
    var n := LineEnd(t);
    if n > 0 {
      WholeIs(t[n..]);
      Halves(t, n);
      Behind(t[..n], t[n..], Complete(t[n..]));
    }
  }

  lemma Behind<T>(a: seq<T>, b: seq<T>, k: nat)
    requires k <= |b|
    ensures (a + b)[..|a|] == a && (a + b)[|a|..] == b && (a + b)[..|a| + k] == a + b[..k]
  {}

  predicate Boundary(t: seq<nat>, q: nat) { q <= |t| && (q == 0 || t[q - 1] == LF) }

  /** It is the first line feed. */
  lemma {:induction false} LineEndFirst(t: seq<nat>)
    ensures forall i :: 0 <= i < (if LineEnd(t) == 0 then |t| else LineEnd(t) - 1) ==> t[i] != LF
  {
    if t != [] && t[0] != LF {
      var rest := t[1..];
      LineEndFirst(rest);
      forall i | 0 <= i < (if LineEnd(t) == 0 then |t| else LineEnd(t) - 1) ensures t[i] != LF {
        if i > 0 { assert rest[i - 1] == t[i]; }
      }
    }
  }

  lemma LineEndIs(t: seq<nat>, n: nat)
    requires 0 < n <= |t| && t[n - 1] == LF && forall i :: 0 <= i < n - 1 ==> t[i] != LF
    ensures LineEnd(t) == n
  {
    LineEndFirst(t);
  }

  /** The complete part ends on a line boundary and no line is complete behind it. */
  lemma {:induction false} CompleteEnds(t: seq<nat>)
    ensures Boundary(t, Complete(t)) && forall i :: Complete(t) <= i < |t| ==> t[i] != LF
    decreases |t|
  {
    var n := LineEnd(t);
    LineEndFirst(t);
    if n > 0 {
      var rest := t[n..];
      CompleteEnds(rest);
      forall i | Complete(t) <= i < |t| ensures t[i] != LF {
        assert rest[i - n] == t[i];
      }
      assert Complete(rest) > 0 ==> rest[Complete(rest) - 1] == t[Complete(t) - 1];
    }
  }

  lemma NoLineEnd(t: seq<nat>)
    requires forall i :: 0 <= i < |t| ==> t[i] != LF
    ensures LineEnd(t) == 0
  {}

  lemma Slices<T>(t: seq<T>, n: nat, q: nat)
    requires n <= q <= |t|
    ensures t[n..][q - n..] == t[q..] && t[n..][..q - n] == t[..q][n..] && t[..q][..n] == t[..n]
  {}

  lemma FirstLineBefore(t: seq<nat>, q: nat)
    requires 0 < q && Boundary(t, q)
    ensures 0 < LineEnd(t) <= q && LineEnd(t[..q]) == LineEnd(t) && Boundary(t[LineEnd(t)..], q - LineEnd(t))
  {
    LineEndFirst(t);
    LineEndIs(t[..q], LineEnd(t));
  }

  lemma LineAhead(t: seq<nat>)
    requires LineEnd(t) > 0
    ensures var n := LineEnd(t); Lines(t) == [t[..n]] + Lines(t[n..]) && Complete(t) == n + Complete(t[n..])
  {}

  /** Lines can be cut at any line boundary. */
  lemma {:induction false} LinesSplit(t: seq<nat>, q: nat)
    requires Boundary(t, q)
    ensures Complete(t) == q + Complete(t[q..]) && Complete(t[..q]) == q
    ensures Lines(t) == Lines(t[..q]) + Lines(t[q..])
    decreases |t|
  {
    if q == 0 {
      assert t[0..] == t;
    } else {
      var n := LineEnd(t);
      var rest, front, behind := t[n..], t[..q], t[q..];
      FirstLineBefore(t, q);
      Slices(t, n, q);
      LinesSplit(rest, q - n);
      LineAhead(t);
      LineAhead(front);
      Regroup([t[..n]], Lines(front[n..]), Lines(behind));
    }
  }

  /** The unfinished last line has no part in the lines. */
  lemma RestHasNoLine(t: seq<nat>)
    ensures LineEnd(t[Complete(t)..]) == 0
  {
    CompleteEnds(t);
    NoLineEnd(t[Complete(t)..]);
  }

  // ---------- reading ----------

  /** Universal newlines: a carriage return, with or without a line feed, is read as a line feed. */
  function Universal(t: Runes): Runes {
    if t == [] then []
    else if t[0] != CR then [t[0]] + Universal(t[1..])
    else [LF] + Universal(if |t| > 1 && t[1] == LF then t[2..] else t[1..])
  }

  function Join(us: seq<Unit>): seq<Unit> {
    if us == [] then []
    else if us[0].Rune() != CR then [us[0]] + Join(us[1..])
    else if |us| > 1 && us[1].Rune() == LF then [CrLf] + Join(us[2..])
    else [Good(LF, 1)] + Join(us[1..])
  }

  lemma {:induction false} JoinIsUniversal(us: seq<Unit>)
    ensures RunesOf(Join(us)) == Universal(RunesOf(us))
    decreases |us|
  {
    if us != [] {
      var t := RunesOf(us);
      assert t[1..] == RunesOf(us[1..]);
      if us[0].Rune() == CR && |us| > 1 && us[1].Rune() == LF {
        assert t[1..][0] == t[1] == us[1].Rune() && us[1..][1..] == us[2..] &&
            t[2..] == t[1..][1..] == RunesOf(us[2..]);
        JoinIsUniversal(us[2..]);
        RunesAppend([CrLf], Join(us[2..]));
        assert [CrLf][1..] == [];
      } else {
        assert |us| > 1 ==> t[1] == t[1..][0] == us[1].Rune();
        JoinIsUniversal(us[1..]);
        var u := if us[0].Rune() == CR then Good(LF, 1) else us[0];
        RunesAppend([u], Join(us[1..]));
        assert [u][1..] == [];
      }
    }
  }

  /** What the reader's file handle yields for the bytes from the offset to the end of the file. */
  function ReadBytes(b: seq<Byte>): Runes { Universal(Decode(b)) }

  function ReadFrom(content: seq<Byte>, offset: nat): Runes {
    if offset <= |content| then ReadBytes(content[offset..]) else []
  }

  /** One pass over the file: the lines it handles and the offset it leaves. */
  function NewLines(content: seq<Byte>, offset: nat): seq<Runes> { Lines(ReadFrom(content, offset)) }

  function NewOffset(content: seq<Byte>, offset: nat): nat {
    offset + |EncodeAll(Whole(ReadFrom(content, offset)))|
  }

  // ---------- where the offset lands ----------

  function Bytes(us: seq<Unit>): nat { if us == [] then 0 else us[0].Bytes() + Bytes(us[1..]) }

  /** How many bytes longer the re-encoded text is, because a replacement character takes three. */
  function Excess(us: seq<Unit>): int {
    if us == [] then 0 else (if us[0].Broken? then 3 - us[0].size else 0) + Excess(us[1..])
  }

  function Pairs(us: seq<Unit>): nat { if us == [] then 0 else (if us[0].CrLf? then 1 else 0) + Pairs(us[1..]) }

  /** Units as the decoder makes them: a character has the size of its encoding. */
  predicate Sound(us: seq<Unit>) {
    forall i :: 0 <= i < |us| ==> Scalar(us[i].Rune()) && (us[i].Good? ==> |Encode(us[i].cp)| == us[i].size)
                                  && (us[i].Broken? ==> 1 <= us[i].size <= 3)
  }

  lemma {:induction false} UnitsSound(b: seq<Byte>)
    ensures Sound(Units(b)) && Bytes(Units(b)) == |b|
    decreases |b|
  {
    if b != [] {
      UnitsSound(b[First(b).size..]);
      UnitsCons(b);
      if First(b).Good? { GoodIsEncoded(b); }
    }
  }

  lemma {:induction false} JoinSound(us: seq<Unit>)
    requires Sound(us)
    ensures Sound(Join(us))
    decreases |us|
  {
    if us != [] {
      if us[0].Rune() == CR && |us| > 1 && us[1].Rune() == LF { JoinSound(us[2..]); } else { JoinSound(us[1..]); }
    }
  }

  /** Re-encoding gives back the bytes, but for replacement characters and joined line ends. */
  lemma {:induction false} EncodedLength(us: seq<Unit>)
    requires Sound(us)
    ensures |EncodeAll(RunesOf(us))| == Bytes(us) + Excess(us) - Pairs(us)
  {
    if us != [] {
      EncodedLength(us[1..]);
      EncodeCons(us[0].Rune(), RunesOf(us[1..]));
    }
  }

  /** What the handle yields, with the size of each piece. */
  function ReadUnits(b: seq<Byte>): seq<Unit> { Join(Units(b)) }

  lemma TakeCons<T>(s: seq<T>, n: nat)
    requires 0 < n <= |s|
    ensures s[..n][0] == s[0] && s[..n][1..] == s[1..][..n - 1] && s[n..] == s[1..][n - 1..]
  {}

  lemma RestBehind(b: seq<Byte>, us: seq<Unit>, k: nat, m: nat, n: nat)
    requires 0 < n <= |us| && k <= |b| && m <= |b[k..]| && k == us[0].Bytes() && m == Bytes(us[1..][..n - 1])
    requires ReadUnits(b[k..][m..]) == us[1..][n - 1..]
    ensures Bytes(us[..n]) <= |b| && ReadUnits(b[Bytes(us[..n])..]) == us[n..]
  {
    TakeCons(us, n);
    Drop(b, k, m);
  }

  /** The bytes behind the first n pieces are read as the remaining pieces. */
  lemma {:induction false} ReadRest(b: seq<Byte>, n: nat)
    requires n <= |ReadUnits(b)|
    ensures Bytes(ReadUnits(b)[..n]) <= |b| && ReadUnits(b[Bytes(ReadUnits(b)[..n])..]) == ReadUnits(b)[n..]
    decreases n
  {
    var us := ReadUnits(b);
    if n == 0 {
      assert us[..0] == [] && b[0..] == b && us[0..] == us;
    } else {
      var k := us[0].Bytes();
      ReadStep(b);
      ReadRest(b[k..], n - 1);
      RestBehind(b, us, k, Bytes(us[1..][..n - 1]), n);
    }
  }

  lemma ReadStep(b: seq<Byte>)
    requires ReadUnits(b) != []
    ensures b != [] && ReadUnits(b)[0].Bytes() <= |b| && ReadUnits(b)[1..] == ReadUnits(b[ReadUnits(b)[0].Bytes()..])
  {
    var us := Units(b);
    UnitsCons(b);
    if us[0].Rune() == CR {
      assert us[0] == Good(13, 1);
      var rest := b[1..];
      if rest != [] {
        UnitsCons(rest);
        assert us[1] == us[1..][0] == First(rest) && us[2..] == us[1..][1..];
        if us[1].Rune() == LF { assert us[1] == Good(10, 1) && rest[1..] == b[2..]; }
      }
    }
  }

  /** The same pieces, cut after the first n, as text. */
  lemma RunesCut(us: seq<Unit>, n: nat)
    requires n <= |us|
    ensures RunesOf(us)[..n] == RunesOf(us[..n]) && RunesOf(us)[n..] == RunesOf(us[n..])
  {
    RunesAppend(us[..n], us[n..]);
    Halves(us, n);
    var a, b := RunesOf(us[..n]), RunesOf(us[n..]);
    assert (a + b)[..n] == a && (a + b)[n..] == b;
  }

  lemma ReadsUnits(b: seq<Byte>)
    ensures RunesOf(ReadUnits(b)) == ReadBytes(b) && Sound(ReadUnits(b))
  {
    JoinIsUniversal(Units(b));
    UnitsSound(b);
    JoinSound(Units(b));
  }

  lemma CutAt(b: seq<Byte>, n: nat)
    requires n <= |ReadUnits(b)|
    ensures var us, t := ReadUnits(b), ReadBytes(b);
            var k := Bytes(us[..n]);
            && |t| == |us| && RunesOf(us[..n]) == t[..n] && k <= |b| && ReadBytes(b[k..]) == t[n..]
            && |EncodeAll(t[..n])| == k + Excess(us[..n]) - Pairs(us[..n])
  {
    var us := ReadUnits(b);
    ReadsUnits(b);
    ReadRest(b, n);
    ReadsUnits(b[Bytes(us[..n])..]);
    RunesCut(us, n);
    EncodedLength(us[..n]);
  }

  /** The pieces of the complete lines. */
  function Done(b: seq<Byte>): seq<Unit> {
    ReadsUnits(b);
    ReadUnits(b)[..Complete(ReadBytes(b))]
  }

  lemma DoneIs(b: seq<Byte>, t: Runes, done: seq<Unit>, k: nat)
    requires t == ReadBytes(b) && done == Done(b) && k == Bytes(done)
    ensures RunesOf(done) == t[..Complete(t)] && k <= |b| && ReadBytes(b[k..]) == t[Complete(t)..]
    ensures |EncodeAll(Whole(t))| == k + Excess(done) - Pairs(done)
  {
    ReadsUnits(b);
    CutAt(b, Complete(t));
    WholeIs(t);
  }

  lemma ReadBehind(content: seq<Byte>, offset: nat, k: nat, resume: nat)
    requires offset <= |content| && k <= |content[offset..]| && resume == offset + k
    ensures resume <= |content| && ReadFrom(content, resume) == ReadBytes(content[offset..][k..])
  {
    Drop(content, offset, k);
    assert content[offset + k..] == content[resume..];
  }

  lemma LandsAt(content: seq<Byte>, offset: nat, t: Runes, done: seq<Unit>, k: nat, resume: nat)
    requires offset <= |content| && t == ReadFrom(content, offset) && done == Done(content[offset..])
    requires k == Bytes(done) && resume == offset + k
    ensures resume <= |content| && RunesOf(done) == t[..Complete(t)] && ReadFrom(content, resume) == t[Complete(t)..]
    ensures NewOffset(content, offset) == resume + Excess(done) - Pairs(done)
  {
    DoneIs(content[offset..], t, done, k);
    ReadBehind(content, offset, k, resume);
  }

  /** Where a pass leaves the offset, for any bytes: the rest of the text is what starts at byte
      `resume`, and the new offset is that byte exactly when the carriage-return line-feed pairs
      among the handled lines make up for their ill-formed pieces of less than three bytes. */
  lemma PassLandsIff(content: seq<Byte>, offset: nat)
    requires offset <= |content|
    ensures var t, done := ReadFrom(content, offset), Done(content[offset..]);
            var resume := offset + Bytes(done);
            && resume <= |content| && RunesOf(done) == t[..Complete(t)] && ReadFrom(content, resume) == t[Complete(t)..]
            && NewOffset(content, offset) == resume + Excess(done) - Pairs(done)
            && (NewOffset(content, offset) == resume <==> Excess(done) == Pairs(done))
  {
    var done := Done(content[offset..]);
    LandsAt(content, offset, ReadFrom(content, offset), done, Bytes(done), offset + Bytes(done));
  }

  // ---------- content without carriage returns ----------

  predicate NoCr(b: seq<Byte>) { forall i :: 0 <= i < |b| ==> b[i] != CR }

  lemma {:induction false} UniversalKeeps(t: Runes)
    requires forall i :: 0 <= i < |t| ==> t[i] != CR
    ensures Universal(t) == t
  {
    if t != [] { UniversalKeeps(t[1..]); }
  }

  /** The complete lines of the bytes, each decoded on its own. */
  function DecodedLines(b: seq<Byte>): seq<Runes> {
    var n := LineEnd(b);
    if n == 0 then [] else [Decode(b[..n])] + DecodedLines(b[n..])
  }

  lemma NoCrReads(b: seq<Byte>)
    requires NoCr(b)
    ensures ReadBytes(b) == Decode(b)
  {
    NoByteNoRune(b, CR);
    UniversalKeeps(Decode(b));
  }

  lemma LineOf(b: seq<Byte>, n: nat)
    requires 0 < n <= |b| && b[n - 1] == LF
    ensures b[..n - 1] + [LF] == b[..n] && b == b[..n - 1] + [LF] + b[n..]
  {}

  /** The first line is decoded on its own. */
  lemma DecodeLine(b: seq<Byte>)
    requires LineEnd(b) > 0
    ensures var n := LineEnd(b);
            Decode(b) == Decode(b[..n]) + Decode(b[n..]) && LineEnd(Decode(b)) == |Decode(b[..n])|
  {
    var n := LineEnd(b);
    var x := b[..n - 1];
    LineOf(b, n);
    LineEndFirst(b);
    DecodeSplit(x, LF, b[n..]);
    NoByteNoRune(x, LF);
    LineThen(Decode(x), Decode(b[n..]));
  }

  lemma LineThen(x: seq<nat>, y: seq<nat>)
    requires forall i :: 0 <= i < |x| ==> x[i] != LF
    ensures LineEnd(x + [LF] + y) == |x + [LF]|
  {
    LineEndIs(x + [LF] + y, |x| + 1);
  }

  lemma NoLineDecoded(b: seq<Byte>)
    requires LineEnd(b) == 0
    ensures LineEnd(Decode(b)) == 0
  {
    LineEndFirst(b);
    NoByteNoRune(b, LF);
    NoLineEnd(Decode(b));
  }

  /** Decoding goes line by line, whether the bytes are well-formed or not. */
  lemma {:induction false} LinesDecode(b: seq<Byte>)
    ensures Lines(Decode(b)) == DecodedLines(b)
    decreases |b|
  {
    var n := LineEnd(b);
    if n == 0 {
      NoLineDecoded(b);
    } else {
      DecodeLine(b);
      Behind(Decode(b[..n]), Decode(b[n..]), 0);
      LinesDecode(b[n..]);
    }
  }

  lemma DecodeBehind(line: seq<Byte>, rest: seq<Byte>)
    requires line != [] && line[|line| - 1] == LF
    ensures Decode(line + rest) == Decode(line) + Decode(rest)
  {
    LineOf(line, |line|);
    assert line[..|line|] == line;
    DecodeSplit(line[..|line| - 1], LF, rest);
  }

  /** The complete lines of the text are the text of the complete lines. */
  lemma {:induction false} WholeDecodes(b: seq<Byte>)
    ensures Whole(Decode(b)) == Decode(WholeBytes(b))
    decreases |b|
  {
    var n := LineEnd(b);
    if n == 0 {
      NoLineDecoded(b);
    } else {
      DecodeLine(b);
      Behind(Decode(b[..n]), Decode(b[n..]), 0);
      WholeDecodes(b[n..]);
      DecodeBehind(b[..n], WholeBytes(b[n..]));
    }
  }

  /** The same for bytes. */
  function WholeBytes(b: seq<Byte>): seq<Byte> {
    var n := LineEnd(b);
    if n == 0 then [] else b[..n] + WholeBytes(b[n..])
  }

  lemma {:induction false} WholeBytesIs(b: seq<Byte>)
    ensures WholeBytes(b) == b[..Complete(b)]
    decreases |b|
  {
    var n := LineEnd(b);
    if n > 0 {
      WholeBytesIs(b[n..]);
      Halves(b, n);
      Behind(b[..n], b[n..], Complete(b[n..]));
    }
  }

  lemma UnitsCut(c: seq<Byte>, q: nat)
    requires Boundary(c, q)
    ensures Units(c) == Units(c[..q]) + Units(c[q..]) && Decode(c) == Decode(c[..q]) + Decode(c[q..])
    ensures Boundary(Decode(c), |Decode(c[..q])|)
  {
    if q == 0 {
      assert c[..0] == [] && c[0..] == c;
    } else {
      LineOf(c, q);
      DecodeSplit(c[..q - 1], LF, c[q..]);
    }
  }

  /** The decoded lines can be cut at a line boundary too. */
  lemma DecodedSplit(c: seq<Byte>, q: nat)
    requires Boundary(c, q)
    ensures DecodedLines(c) == DecodedLines(c[..q]) + DecodedLines(c[q..])
  {
    UnitsCut(c, q);
    LinesSplit(Decode(c), |Decode(c[..q])|);
    Behind(Decode(c[..q]), Decode(c[q..]), 0);
    LinesDecode(c);
    LinesDecode(c[..q]);
    LinesDecode(c[q..]);
  }

  lemma DecodedInComplete(c: seq<Byte>)
    ensures DecodedLines(c[..Complete(c)]) == DecodedLines(c)
  {
    CompleteEnds(c);
    DecodedSplit(c, Complete(c));
    RestHasNoLine(c);
  }

  // ---------- stable bytes ----------

  /** Every ill-formed piece is as long as the replacement character's encoding. */
  predicate Stable(us: seq<Unit>) { forall i :: 0 <= i < |us| ==> us[i].Broken? ==> us[i].size == 3 }

  lemma {:induction false} StableIff(us: seq<Unit>)
    requires Sound(us)
    ensures Excess(us) >= 0 && (Excess(us) == 0 <==> Stable(us))
  {
    if us != [] {
      StableIff(us[1..]);
      assert Stable(us) ==> Stable(us[1..]);
      assert Stable(us[1..]) && (us[0].Broken? ==> us[0].size == 3) ==> Stable(us) by {
        if Stable(us[1..]) && (us[0].Broken? ==> us[0].size == 3) {
          forall i | 0 <= i < |us| ensures us[i].Broken? ==> us[i].size == 3 {
            if i > 0 { assert us[1..][i - 1] == us[i]; }
          }
        }
      }
    }
  }

  lemma {:induction false} NoPairs(b: seq<Byte>)
    ensures Pairs(Units(b)) == 0
    decreases |b|
  {
    if b != [] {
      NoPairs(b[First(b).size..]);
      UnitsCons(b);
    }
  }

  lemma NoCrAdvance(b: seq<Byte>)
    requires NoCr(b)
    ensures |EncodeAll(Whole(ReadBytes(b)))| == Complete(b) + Excess(Units(b[..Complete(b)]))
  {
    NoCrReads(b);
    WholeDecodes(b);
    WholeBytesIs(b);
    UnitsSound(b[..Complete(b)]);
    NoPairs(b[..Complete(b)]);
    EncodedLength(Units(b[..Complete(b)]));
  }

  /** A pass from a line boundary over content without carriage returns handles exactly the complete
      lines behind it. */
  lemma PassLines(c: seq<Byte>, q: nat)
    requires NoCr(c) && Boundary(c, q)
    ensures DecodedLines(c[..q]) + NewLines(c, q) == DecodedLines(c)
  {
    NoCrReads(c[q..]);
    LinesDecode(c[q..]);
    DecodedSplit(c, q);
  }

  /** It goes too far by the excess of what it handled. */
  lemma PassOffset(c: seq<Byte>, q: nat)
    requires NoCr(c) && Boundary(c, q)
    ensures q <= Complete(c) && NewOffset(c, q) == Complete(c) + Excess(Units(c[q..Complete(c)]))
  {
    LinesSplit(c, q);
    NoCrAdvance(c[q..]);
    Between(c, q, Complete(c));
  }

  lemma Between<T>(c: seq<T>, q: nat, r: nat)
    requires q <= r <= |c|
    ensures c[q..][..r - q] == c[q..r]
  {}

  // ---------- one transcript, every history ----------

  datatype Reader = Reader(current: Option<string>, offset: nat, seen: seq<Runes>)

  /** One turn of the loop: switch to the transcript that was found, then pass over the current one.
      A file that cannot be opened is skipped. */
  function Turn(r: Reader, found: Option<string>, files: map<string, seq<Byte>>): Reader {
    var s := if found.Some? && found != r.current then Reader(found, 0, r.seen) else r;
    if s.current == None || s.current.value !in files then s
    else
      var content := files[s.current.value];
      Reader(s.current, NewOffset(content, s.offset), s.seen + NewLines(content, s.offset))
  }

  /** The transcript, its reader, and how much of the transcript there was at the last pass. */
  datatype Watch = Watch(content: seq<Byte>, reader: Reader, polled: nat)

  /** The writer appends any bytes at any time; a turn may or may not find the transcript. */
  datatype Step = Append(bytes: seq<Byte>) | Poll(found: bool)

  function Do(f: string, w: Watch, step: Step): Watch {
    match step
    case Append(bytes) => w.(content := w.content + bytes)
    case Poll(found) =>
      var r := Turn(w.reader, if found then Some(f) else None, map[f := w.content]);
      Watch(w.content, r, if r.current == Some(f) then |w.content| else w.polled)
  }

  function After(f: string, steps: seq<Step>): Watch {
    if steps == [] then Watch([], Reader(None, 0, []), 0)
    else Do(f, After(f, steps[..|steps| - 1]), steps[|steps| - 1])
  }

  /** The reader has handled exactly the lines that were complete at the last pass, each once and in
      order, and its offset is behind them. */
  predicate Exact(w: Watch) {
    && w.polled <= |w.content| && w.reader.offset == Complete(w.content[..w.polled])
    && w.reader.seen == DecodedLines(w.content[..w.polled])
  }

  predicate AlwaysExact(f: string, steps: seq<Step>) {
    Exact(After(f, steps)) && (steps != [] ==> AlwaysExact(f, steps[..|steps| - 1]))
  }

  /** The lines that were complete at the last pass, as bytes. */
  function Handled(w: Watch): seq<Byte>
    requires w.polled <= |w.content|
  {
    w.content[..w.polled][..Complete(w.content[..w.polled])]
  }

  lemma {:induction false} Follows(f: string, steps: seq<Step>)
    ensures var w := After(f, steps);
            && w.polled <= |w.content| && w.reader.current in {None, Some(f)}
            && (w.reader.current == None ==> w.reader == Reader(None, 0, []) && w.polled == 0)
  {
    if steps != [] { Follows(f, steps[..|steps| - 1]); }
  }

  /** What was handled before is a start of what is complete now, cut at a line boundary. */
  lemma HandledGrows(c: seq<Byte>, p: nat)
    requires p <= |c|
    ensures var q := Complete(c[..p]);
            Boundary(c, q) && q <= Complete(c) && c[..p][..q] == c[..q] && DecodedLines(c[..p]) == DecodedLines(c[..q])
  {
    var q := Complete(c[..p]);
    CompleteEnds(c[..p]);
    assert c[..p][..q] == c[..q];
    DecodedInComplete(c[..p]);
    LinesSplit(c, q);
  }

  lemma UnitsBetween(c: seq<Byte>, q: nat, r: nat)
    requires q <= r <= |c| && Boundary(c, q)
    ensures Units(c[..r]) == Units(c[..q]) + Units(c[q..r])
  {
    var d := c[..r];
    assert d[..q] == c[..q] && d[q..] == c[q..r];
    UnitsCut(d, q);
  }

  lemma StableParts(a: seq<Unit>, b: seq<Unit>)
    ensures Stable(a + b) <==> Stable(a) && Stable(b)
  {
    assert forall i :: 0 <= i < |a| ==> (a + b)[i] == a[i];
    assert forall i :: 0 <= i < |b| ==> (a + b)[|a| + i] == b[i];
    if Stable(a) && Stable(b) {
      forall i | 0 <= i < |a + b| ensures (a + b)[i].Broken? ==> (a + b)[i].size == 3 {
        if i >= |a| { assert (a + b)[i] == b[i - |a|]; }
      }
    }
  }

  /** A pass by a reader that was exact when the content had length p leaves it exact if and only if
      the lines handled are stable. */
  lemma ExactPass(c: seq<Byte>, p: nat, r: Reader)
    requires NoCr(c) && p <= |c| && Exact(Watch(c, r, p))
    ensures var next := Reader(r.current, NewOffset(c, r.offset), r.seen + NewLines(c, r.offset));
            Stable(Units(Handled(Watch(c, r, p)))) ==>
              (Exact(Watch(c, next, |c|)) <==> Stable(Units(Handled(Watch(c, next, |c|)))))
  {
    var q := Complete(c[..p]);
    assert c[..|c|] == c;
    HandledGrows(c, p);
    PassLines(c, q);
    PassOffset(c, q);
    UnitsBetween(c, q, Complete(c));
    StableParts(Units(c[..q]), Units(c[q..Complete(c)]));
    UnitsSound(c[q..Complete(c)]);
    StableIff(Units(c[q..Complete(c)]));
  }

  /** Instability stays. */
  lemma UnstableStays(c: seq<Byte>, p: nat)
    requires p <= |c| && !Stable(Units(c[..p][..Complete(c[..p])]))
    ensures !Stable(Units(c[..Complete(c)]))
  {
    var q := Complete(c[..p]);
    HandledGrows(c, p);
    UnitsBetween(c, q, Complete(c));
    StableParts(Units(c[..q]), Units(c[q..Complete(c)]));
  }

  /** Exactly once: for every interleaving of appends and polls on one transcript without carriage
      returns, the reader is exact at all times if and only if every ill-formed piece in the lines it
      handled is three bytes long. */
  lemma {:induction false} FollowsIff(f: string, steps: seq<Step>)
    requires NoCr(After(f, steps).content)
    ensures After(f, steps).polled <= |After(f, steps).content|
    ensures AlwaysExact(f, steps) <==> Stable(Units(Handled(After(f, steps))))
    decreases |steps|
  {
    Follows(f, steps);
    if steps == [] {
      assert Handled(After(f, steps)) == [];
    } else {
      var v, w := After(f, steps[..|steps| - 1]), After(f, steps);
      Follows(f, steps[..|steps| - 1]);
      if steps[|steps| - 1].Append? {
        assert w.content[..w.polled] == v.content[..v.polled];
        assert forall i :: 0 <= i < |v.content| ==> v.content[i] == w.content[i];
        FollowsIff(f, steps[..|steps| - 1]);
      } else {
        FollowsIff(f, steps[..|steps| - 1]);
        PolledIff(f, v, w, steps[|steps| - 1].found);
      }
    }
  }

  lemma PolledIff(f: string, v: Watch, w: Watch, found: bool)
    requires v.polled <= |v.content| && v.reader.current in {None, Some(f)} && w == Do(f, v, Poll(found)) &&
            NoCr(v.content)
    requires v.reader.current == None ==> v.reader == Reader(None, 0, []) && v.polled == 0
    ensures w.polled <= |w.content|
    ensures Exact(v) && Stable(Units(Handled(v))) ==> (Exact(w) <==> Stable(Units(Handled(w))))
    ensures !Stable(Units(Handled(v))) ==> !Stable(Units(Handled(w)))
  {
    var c := v.content;
    assert c[..|c|] == c;
    if w.polled == |c| && w.reader.current == Some(f) {
      if !Stable(Units(Handled(v))) { UnstableStays(c, v.polled); }
      var r := if v.reader.current == None then Reader(Some(f), 0, []) else v.reader;
      if Exact(v) { ExactPass(c, v.polled, r); }
    }
  }

  lemma {:induction false} LastIsPoll(f: string, steps: seq<Step>)
    requires steps != [] && steps[|steps| - 1] == Poll(true)
    ensures After(f, steps).polled == |After(f, steps).content| && After(f, steps).reader.current == Some(f)
  {}

  lemma GoodIsStable(us: seq<Unit>)
    requires AllGood(us)
    ensures Stable(us)
  {}

  /** What the follower is for. The transcript is well-formed as far as its lines are complete, and
      appends may cut it anywhere, within a character too: the offset is always on a line boundary,
      the lines handled are exactly the complete lines below it, in order and each once, and a pass
      leaves no complete line behind. */
  lemma ExactlyOnce(f: string, steps: seq<Step>)
    requires var c := After(f, steps).content; NoCr(c) && WellFormed(c[..Complete(c)])
    ensures var c, r := After(f, steps).content, After(f, steps).reader;
            && Boundary(c, r.offset) && r.seen == DecodedLines(c[..r.offset])
            && (steps != [] && steps[|steps| - 1] == Poll(true) ==> r.offset == Complete(c))
  {
    var w := After(f, steps);
    var c := w.content;
    Follows(f, steps);
    GoodIsStable(Units(c[..Complete(c)]));
    if !Stable(Units(Handled(w))) { UnstableStays(c, w.polled); }
    FollowsIff(f, steps);
    HandledGrows(c, w.polled);
    if steps != [] && steps[|steps| - 1] == Poll(true) {
      LastIsPoll(f, steps);
      assert c[..|c|] == c;
    }
  }

  // ---------- where it fails ----------

  lemma {:induction false} AsciiDecodes(b: seq<Byte>)
    requires forall i :: 0 <= i < |b| ==> b[i] < 0x80
    ensures Decode(b) == b
  {
    if b != [] {
      AsciiDecodes(b[1..]);
      UnitsCons(b);
    }
  }

  lemma {:induction false} AsciiLength(t: Runes)
    requires forall i :: 0 <= i < |t| ==> t[i] < 0x80
    ensures |EncodeAll(t)| == |t|
  {
    if t != [] { AsciiLength(t[1..]); }
  }

  lemma PairAtFront(t: Runes)
    ensures Universal([97, CR, LF] + t) == [97, LF] + Universal(t)
  {
    var s := [97, CR, LF] + t;
    assert s[1..] == [CR, LF] + t && s[1..][2..] == t;
    assert Universal(s) == [97] + Universal(s[1..]) && Universal(s[1..]) == [LF] + Universal(t);
    Regroup([97], [LF], Universal(t));
  }

  lemma LineAtFront(t: Runes)
    ensures LineEnd([97, LF] + t) == 2 && ([97, LF] + t)[..2] == [97, LF] && ([97, LF] + t)[2..] == t
  {
    LineThen([97], t);
    assert [97] + [LF] == [97, LF];
  }

  const A_PAIR: seq<Byte> := [97, 13, 10]

  /** n lines "a", each ended by a pair. */
  function PairLines(n: nat): (b: seq<Byte>)
    ensures |b| == 3 * n
  {
    if n == 0 then [] else A_PAIR + PairLines(n - 1)
  }

  function ReadLines(n: nat): (t: Runes)
    ensures |t| == 2 * n && forall i :: 0 <= i < |t| ==> t[i] < 0x80
  {
    if n == 0 then [] else [97, LF] + ReadLines(n - 1)
  }

  function Repeated(n: nat): (ls: seq<Runes>)
    ensures |ls| == n
  {
    if n == 0 then [] else [[97, LF]] + Repeated(n - 1)
  }

  lemma {:induction false} PairLinesRead(n: nat)
    ensures ReadBytes(PairLines(n)) == ReadLines(n)
  {
    PairLinesAscii(n);
    if n > 0 {
      PairLinesAscii(n - 1);
      PairLinesRead(n - 1);
      PairAtFront(PairLines(n - 1));
    }
  }

  lemma {:induction false} PairLinesAscii(n: nat)
    ensures Decode(PairLines(n)) == PairLines(n)
  {
    if n > 0 {
      PairLinesAscii(n - 1);
      AsciiDecodes(A_PAIR);
      DecodeBehind(A_PAIR, PairLines(n - 1));
    }
  }

  lemma {:induction false} ReadLinesAre(n: nat)
    ensures Lines(ReadLines(n)) == Repeated(n) && Whole(ReadLines(n)) == ReadLines(n)
  {
    if n > 0 {
      ReadLinesAre(n - 1);
      LineAtFront(ReadLines(n - 1));
    }
  }

  lemma {:induction false} PairLinesDrop(n: nat, k: nat)
    requires k <= n
    ensures PairLines(n)[3 * k..] == PairLines(n - k)
  {
    if k == 0 {
      assert PairLines(n)[0..] == PairLines(n);
    } else {
      PairLinesDrop(n - 1, k - 1);
      Behind(A_PAIR, PairLines(n - 1), 0);
      Drop(PairLines(n), 3, 3 * (k - 1));
    }
  }

  lemma PairLinesPass(n: nat, c: seq<Byte>, offset: nat)
    requires offset <= |c| && c[offset..] == PairLines(n)
    ensures NewLines(c, offset) == Repeated(n) && NewOffset(c, offset) == offset + 2 * n
  {
    PairLinesRead(n);
    ReadLinesAre(n);
    AsciiLength(ReadLines(n));
  }

  /** A pass from the start of line k over n such lines. */
  lemma PassFrom(n: nat, k: nat, c: seq<Byte>, offset: nat, more: nat, next: nat)
    requires c == PairLines(n) && offset == 3 * k && k + more == n && next == offset + 2 * more
    ensures NewLines(c, offset) == Repeated(more) && NewOffset(c, offset) == next
  {
    PairLinesDrop(n, k);
    PairLinesPass(more, c, offset);
  }

  /** With carriage returns lines are handled again: after 3n lines "a" ended by pairs the offset is
      short by a byte for each line, so the next pass handles the last n lines once more. */
  lemma CrLfRepeats(n: nat, c: seq<Byte>)
    requires c == PairLines(3 * n)
    ensures NewLines(c, 0) == Repeated(3 * n) && NewOffset(c, 0) == 6 * n && NewLines(c, 6 * n) == Repeated(n)
  {
    PassFrom(3 * n, 0, c, 0, 3 * n, 6 * n);
    PassFrom(3 * n, 2 * n, c, 6 * n, n, 8 * n);
  }

  /** After an ill-formed byte the offset is two too far, and a line appended there is never handled. */
  lemma BadByteLosesLine()
    ensures var c: seq<Byte> := [0x80, 10];
            NewOffset(c, 0) == 4 && NewLines(c + [97, 10], 4) == [] && LineEnd([97, 10]) == 2
  {
    var c: seq<Byte> := [0x80, 10];
    assert c[0..] == c && (c + [97, 10])[4..] == [];
    assert First(c) == Broken(1) && c[1..] == [10] && [10][1..] == [];
    UnitsCons(c);
    AsciiDecodes([10]);
    NoByteNoRune(c, CR);
    UniversalKeeps(Decode(c));
    var t: Runes := [REPLACEMENT, 10];
    assert Decode(c) == t;
    LineEndIs(t, 2);
    LineEndIs([97, 10], 2);
    assert t[2..] == [] && t[..2] == t && Whole(t) == t + [];
    assert t[1..] == [10] && [10][1..] == [];
    assert EncodeAll(t) == Encode(REPLACEMENT) + (Encode(10) + []);
  }

  lemma OneAsciiLine(b: seq<Byte>, c: seq<Byte>, n: nat)
    requires b == [97, 10] && n <= |c| && c[n..] == b
    ensures NewLines(c, n) == [b]
  {
    AsciiDecodes(b);
    UniversalKeeps(b);
    LineEndIs(b, 2);
    var none: Runes := [];
    assert b[2..] == none && b[..2] == b && Lines(none) == [];
    assert Lines(b) == [b[..2]] + Lines(b[2..]);
  }

  /** After a character cut to three of its four bytes the offset is right, and the next line is handled. */
  lemma CutCharacterKeepsPlace(c: seq<Byte>)
    requires c == [0xF0, 0x9F, 0x98, 10]
    ensures NewOffset(c, 0) == 4 && NewLines(c + [97, 10], 4) == [[97, 10]]
  {
    assert First(c) == Broken(3) && c[3..] == [10];
    UnitsCons(c);
    AsciiDecodes([10]);
    var t: Runes := [REPLACEMENT, 10];
    assert Decode(c) == t && c[0..] == c;
    NoByteNoRune(c, CR);
    UniversalKeeps(t);
    TwoRuneLine(t);
    assert (c + [97, 10])[4..] == [97, 10];
    OneAsciiLine([97, 10], c + [97, 10], 4);
  }

  lemma TwoRuneLine(t: Runes)
    requires t == [REPLACEMENT, 10]
    ensures |EncodeAll(Whole(t))| == 4
  {
    LineEndIs(t, 2);
    assert t[2..] == [] && t[..2] == t && Whole(t) == t + [];
    assert t[1..] == [10] && [10][1..] == [];
    assert EncodeAll(t) == Encode(REPLACEMENT) + (Encode(10) + []);
  }

  /** Coming back to a transcript starts it over: all its lines are handled again. */
  lemma ReturnRepeats(r: Reader, f: string, g: string, files: map<string, seq<Byte>>)
    requires f != g && r.current == Some(f) && f in files && g in files
    ensures var back := Turn(Turn(r, Some(g), files), Some(f), files);
            back.seen == r.seen + NewLines(files[g], 0) + NewLines(files[f], 0) && back.offset == NewOffset(files[f], 0)
  {}

  // ---------- the loop ----------

  class Follower {
    var current: Option<string>
    var offset: nat
    /** The complete lines handled so far; stripping, parsing and printing happen line by line. */
    var seen: seq<Runes>

    constructor ()
      ensures State() == Reader(None, 0, [])
    {
      current, offset, seen := None, 0, [];
    }

    ghost function State(): Reader
      reads this
    {
      Reader(current, offset, seen)
    }

    /** The inner loop over the lines of the file handle. */
    method Pass(content: seq<Byte>)
      modifies this`offset, this`seen
      ensures offset == NewOffset(content, old(offset)) && seen == old(seen) + NewLines(content, old(offset))
    {
      var rest := ReadFrom(content, offset);
      while true
        invariant seen + Lines(rest) == old(seen) + NewLines(content, old(offset))
        invariant offset + |EncodeAll(Whole(rest))| == NewOffset(content, old(offset))
        decreases |rest|
      {
        var n := LineEnd(rest);
        if n == 0 { break; }
        Regroup(seen, [rest[..n]], Lines(rest[n..]));
        EncodeAppend(rest[..n], Whole(rest[n..]));
        offset := offset + |EncodeAll(rest[..n])|;
        seen := seen + [rest[..n]];
        rest := rest[n..];
      }
    }

    /** One turn of the outer loop, without the waiting. */
    method Poll(found: Option<string>, files: map<string, seq<Byte>>)
      modifies this
      ensures State() == Turn(old(State()), found, files)
    {
      if found.Some? && found != current {
        current, offset := found, 0;
      }
      if current == None || current.value !in files { return; }
      Pass(files[current.value]);
    }
  }

  lemma {:induction false} EncodeAppend(a: Runes, b: Runes)
    ensures EncodeAll(a + b) == EncodeAll(a) + EncodeAll(b)
  {
    if a == [] {
      assert a + b == b;
    } else {
      EncodeAppend(a[1..], b);
      assert (a + b)[0] == a[0] && (a + b)[1..] == a[1..] + b;
      Regroup(Encode(a[0]), EncodeAll(a[1..]), EncodeAll(b));
    }
  }
}
