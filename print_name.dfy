/** format_print_name: the name a peer is shown under. The non-empty name
    parts are joined with single spaces, newlines become spaces and `#`
    becomes `@`, and while the name belongs to another peer a suffix
    " #1", " #2", ... replaces the previous one. Names are the engine's
    byte strings (UTF-8), so every length here counts bytes. */
module PrintName {
  import opened Bytes
  import opened Engine

  /** The bytes of a C string: it holds no NUL. */
  type Text = s: seq<byte> | 0 !in s

  /** The ASCII codes the function writes or looks for. */
  const Newline: byte := 10
  const Space: byte := 32
  const Hash: byte := 35
  const At: byte := 64

  /*** Joining the parts ***/

  /** The parts that are neither NULL nor empty, in order. */
  function Present(parts: seq<Option<Text>>): (ws: seq<seq<byte>>)
    ensures forall k | 0 <= k < |ws| :: ws[k] != []
    decreases |parts|
  {
    if parts == [] then []
    else
      var last := parts[|parts| - 1];
      Present(parts[..|parts| - 1]) + (if last.Some? && last.value != [] then [last.value] else [])
  }

  /** The words with one space between each two of them. */
  function SpaceJoin(ws: seq<seq<byte>>): seq<byte>
    decreases |ws|
  {
    if ws == [] then []
    else if |ws| == 1 then ws[0]
    else SpaceJoin(ws[..|ws| - 1]) + [Space] + ws[|ws| - 1]
  }

  /** The joined name, or None when the joining loop's `assert (p < 9990)`
      aborts. */
  function JoinedName(parts: seq<Option<Text>>): Option<seq<byte>> {
    var j := SpaceJoin(Present(parts));
    if |j| >= 9990 then None else Some(j)
  }

  predicate NonEmptyWords(ws: seq<seq<byte>>) {
    forall k | 0 <= k < |ws| :: ws[k] != []
  }

  lemma {:induction false} SpaceJoinEmpty(ws: seq<seq<byte>>)
    requires NonEmptyWords(ws)
    ensures SpaceJoin(ws) == [] <==> ws == []
  {
    if |ws| > 1 {
      assert |SpaceJoin(ws)| >= |ws[|ws| - 1]| > 0;
    }
  }

  /** Appending a word: a space goes in front of it unless nothing came
      before. */
  lemma {:induction false} SpaceJoinSnoc(ws: seq<seq<byte>>, w: seq<byte>)
    requires NonEmptyWords(ws)
    ensures SpaceJoin(ws + [w]) == if SpaceJoin(ws) == [] then w else SpaceJoin(ws) + [Space] + w
  {
    SpaceJoinEmpty(ws);
    assert (ws + [w])[..|ws|] == ws;
  }

  /** No separator before the first word or after the last one, and exactly
      one between each two: the joined name is the first word, then " " and
      the next word for each word after it. */
  lemma {:induction false} SpaceJoinShape(ws: seq<seq<byte>>)
    requires NonEmptyWords(ws) && ws != []
    ensures var j := SpaceJoin(ws);
      && |j| == WordsLength(ws) + |ws| - 1
      && |j| >= |ws[0]| && |j| >= |ws[|ws| - 1]|
      && j[..|ws[0]|] == ws[0] && j[|j| - |ws[|ws| - 1]|..] == ws[|ws| - 1]
    decreases |ws|
  {
    if |ws| > 1 {
      var init := ws[..|ws| - 1];
      SpaceJoinShape(init);
      assert init[0] == ws[0];
      var j0 := SpaceJoin(init);
      assert SpaceJoin(ws) == j0 + [Space] + ws[|ws| - 1];
      assert (j0 + [Space] + ws[|ws| - 1])[..|ws[0]|] == j0[..|ws[0]|];
      WordsLengthSnoc(init, ws[|ws| - 1]);
      assert init + [ws[|ws| - 1]] == ws;
    }
  }

  function WordsLength(ws: seq<seq<byte>>): nat
    decreases |ws|
  {
    if ws == [] then 0 else WordsLength(ws[..|ws| - 1]) + |ws[|ws| - 1]|
  }

  lemma {:induction false} WordsLengthSnoc(ws: seq<seq<byte>>, w: seq<byte>)
    ensures WordsLength(ws + [w]) == WordsLength(ws) + |w|
  {
    assert (ws + [w])[..|ws|] == ws;
  }

  lemma {:induction false} PresentSnoc(parts: seq<Option<Text>>, i: nat)
    requires i < |parts|
    ensures Present(parts[..i + 1])
         == Present(parts[..i]) + (if parts[i].Some? && parts[i].value != [] then [parts[i].value] else [])
  {
    assert parts[..i + 1][..i] == parts[..i];
  }

  /** Later parts only make the joined name longer. */
  lemma {:induction false} JoinGrows(parts: seq<Option<Text>>, i: nat)
    requires i <= |parts|
    ensures |SpaceJoin(Present(parts[..i]))| <= |SpaceJoin(Present(parts))|
    decreases |parts| - i
  {
    if i < |parts| {
      JoinGrows(parts, i + 1);
      PresentSnoc(parts, i);
      var ws := Present(parts[..i]);
      if parts[i].Some? && parts[i].value != [] {
        SpaceJoinSnoc(ws, parts[i].value);
      } else {
        assert ws + [] == ws;
      }
    } else {
      assert parts[..i] == parts;
    }
  }

  /** The loop over the four parts, appending "%s%s" with a space in front
      once something was written, and the assertion that the byte count
      `p` stays under 9990. */
  method JoinParts(parts: seq<Option<Text>>) returns (r: Option<seq<byte>>)
    ensures r == JoinedName(parts)
  {
    var buf: seq<byte> := [];
    var i := 0;
    while i < |parts|
      invariant 0 <= i <= |parts|
      invariant buf == SpaceJoin(Present(parts[..i])) && |buf| < 9990
    {
      PresentSnoc(parts, i);
      var d := parts[i];
      if d.Some? && |d.value| > 0 {
        SpaceJoinSnoc(Present(parts[..i]), d.value);
        buf := buf + (if |buf| > 0 then [Space] else []) + d.value;
        if |buf| >= 9990 {
          JoinGrows(parts, i + 1);
          return None;
        }
      } else {
        assert Present(parts[..i]) + [] == Present(parts[..i]);
      }
      i := i + 1;
    }
    assert parts[..i] == parts;
    r := Some(buf);
  }

  /*** Sanitising ***/

  function Clean(b: byte): byte {
    if b == Newline then Space else if b == Hash then At else b
  }

  /** Newlines become spaces and `#` becomes `@`, one byte at a time:
      the result holds neither a newline nor a `#`, and every other
      byte is left where it was. */
  function Sanitised(s: seq<byte>): (r: seq<byte>)
    ensures |r| == |s| && Newline !in r && Hash !in r
    ensures forall k | 0 <= k < |s| && s[k] != Newline && s[k] != Hash :: r[k] == s[k]
  {
    seq(|s|, k requires 0 <= k < |s| => Clean(s[k]))
  }

  /** The `while (*s)` loop rewriting the buffer in place. */
  method SanitiseInPlace(buf: array<byte>)
    modifies buf
    ensures buf[..] == Sanitised(old(buf[..]))
  {
    var i := 0;
    while i < buf.Length
      invariant 0 <= i <= buf.Length
      invariant forall k | 0 <= k < i :: buf[k] == Clean(old(buf[k]))
      invariant forall k | i <= k < buf.Length :: buf[k] == old(buf[k])
    {
      if buf[i] == Newline {
        buf[i] := Space;
      }
      if buf[i] == Hash {
        buf[i] := At;
      }
      i := i + 1;
    }
  }

  /*** De-duplicating ***/

  /** The ASCII digit for `d`. */
  function Digit(d: nat): byte
    requires d < 10
  {
    '0' as int + d
  }

  /** `%d` of a non-negative number. */
  function Decimal(n: nat): (s: seq<byte>)
    ensures |s| >= 1 && (n >= 10 ==> |s| >= 2)
    decreases n
  {
    if n < 10 then [Digit(n)] else Decimal(n / 10) + [Digit(n % 10)]
  }

  /** Different numbers print differently. */
  lemma {:induction false} DecimalInjective(n: nat, m: nat)
    requires Decimal(n) == Decimal(m)
    ensures n == m
    decreases n
  {
    if n >= 10 && m >= 10 {
      var a, b := Decimal(n), Decimal(m);
      assert a[|a| - 1] == Digit(n % 10) && b[|b| - 1] == Digit(m % 10);
      assert a[..|a| - 1] == Decimal(n / 10) && b[..|b| - 1] == Decimal(m / 10);
      DecimalInjective(n / 10, m / 10);
    }
  }

  /** The name tried after `n` collisions: the base name, then " #n" written
      at the base name's end. */
  function Candidate(base: seq<byte>, n: nat): seq<byte> {
    if n == 0 then base else base + [Space, Hash] + Decimal(n)
  }

  /** tgl_peer_get_by_name finds no peer under the name, or finds the peer
      being named. */
  predicate Free(names: map<seq<byte>, PeerId>, id: PeerId, s: seq<byte>) {
    s !in names || names[s] == id
  }

  /** The de-duplication loop from `n` collisions on; None when the
      assertion `cc <= 9999` aborts. */
  function Dedup(names: map<seq<byte>, PeerId>, id: PeerId, base: seq<byte>, n: nat): Option<seq<byte>>
    requires n <= 9999
    decreases 9999 - n
  {
    if Free(names, id, Candidate(base, n)) then Some(Candidate(base, n))
    else if n == 9999 then None
    else Dedup(names, id, base, n + 1)
  }

  /** A collision moves the loop on to the next candidate. */
  lemma {:induction false} DedupStep(names: map<seq<byte>, PeerId>, id: PeerId, base: seq<byte>, n: nat)
    requires n < 9999 && !Free(names, id, Candidate(base, n))
    ensures Dedup(names, id, base, n) == Dedup(names, id, base, n + 1)
  {
  }

  /** The loop stops at the first candidate from `n` on that is free. */
  lemma {:induction false} DedupFirstFree(names: map<seq<byte>, PeerId>, id: PeerId, base: seq<byte>, n: nat)
    requires n <= 9999 && Dedup(names, id, base, n).Some?
    ensures exists k | n <= k <= 9999 :: Dedup(names, id, base, n).value == Candidate(base, k)
              && Free(names, id, Candidate(base, k))
              && forall j | n <= j < k :: !Free(names, id, Candidate(base, j))
    decreases 9999 - n
  {
    if Free(names, id, Candidate(base, n)) {
      assert Dedup(names, id, base, n).value == Candidate(base, n);
    } else {
      DedupStep(names, id, base, n);
      DedupFirstFree(names, id, base, n + 1);
      var k :| n + 1 <= k <= 9999 && Dedup(names, id, base, n + 1).value == Candidate(base, k)
               && Free(names, id, Candidate(base, k))
               && forall j | n + 1 <= j < k :: !Free(names, id, Candidate(base, j));
      assert forall j | n <= j < k :: !Free(names, id, Candidate(base, j));
    }
  }

  /** The loop aborts exactly when every candidate from `n` up to " #9999"
      belongs to another peer. */
  lemma {:induction false} DedupAborts(names: map<seq<byte>, PeerId>, id: PeerId, base: seq<byte>, n: nat)
    requires n <= 9999
    ensures Dedup(names, id, base, n).None? <==> forall j | n <= j <= 9999 :: !Free(names, id, Candidate(base, j))
    decreases 9999 - n
  {
    if Free(names, id, Candidate(base, n)) {
      assert Dedup(names, id, base, n).Some?;
    } else if n == 9999 {
      forall j | n <= j <= 9999
        ensures !Free(names, id, Candidate(base, j))
      {
        assert j == n;
      }
    } else {
      DedupStep(names, id, base, n);
      DedupAborts(names, id, base, n + 1);
      if Dedup(names, id, base, n + 1).None? {
        forall j | n <= j <= 9999
          ensures !Free(names, id, Candidate(base, j))
        {
          if j == n {
          }
        }
      }
    }
  }

  lemma {:induction false} SuffixMarks(base: seq<byte>, n: nat)
    ensures n > 0 ==> Candidate(base, n)[|base|] == Space && Candidate(base, n)[|base| + 1] == Hash
  {
  }

  /** A base name free of `#` leaves no doubt which suffix a candidate
      carries: two candidates are equal only for the same base and number. */
  lemma {:induction false} CandidatesDistinct(b1: seq<byte>, n: nat, b2: seq<byte>, m: nat)
    requires Hash !in b1 && Hash !in b2
    requires Candidate(b1, n) == Candidate(b2, m)
    ensures b1 == b2 && n == m
  {
    var c := Candidate(b1, n);
    if n > 0 && m > 0 {
      if |b1| != |b2| {
        SuffixMarks(b1, n);
        SuffixMarks(b2, m);
        assert false;
      }
      assert b1 == c[..|b1|] == b2;
      assert Decimal(n) == c[|b1| + 2..] == Decimal(m);
      DecimalInjective(n, m);
    }
  }

  /** `while (1)` looking the name up, with `snprintf (s + fl, ..., " #%d",
      cc)` writing each new suffix over the previous one. */
  method DedupName(names: map<seq<byte>, PeerId>, id: PeerId, base: seq<byte>) returns (r: Option<seq<byte>>)
    ensures r == Dedup(names, id, base, 0)
  {
    var fl := |base|;
    var s := base;
    var cc := 0;
    while true
      invariant 0 <= cc <= 9999 && s == Candidate(base, cc)
      invariant Dedup(names, id, base, cc) == Dedup(names, id, base, 0)
      decreases 9999 - cc
    {
      if s !in names || names[s] == id {
        return Some(s);
      }
      cc := cc + 1;
      if cc > 9999 {
        return None;
      }
      DedupStep(names, id, base, cc - 1);
      assert s[..fl] == base;
      s := s[..fl] + [Space, Hash] + Decimal(cc);
    }
  }

  /*** format_print_name ***/

  /** The name format_print_name returns for peer `id`, given the names the
      engine already knows; None when one of its assertions aborts. */
  function PrintNameOf(names: map<seq<byte>, PeerId>, id: PeerId, parts: seq<Option<Text>>): Option<seq<byte>> {
    match JoinedName(parts)
    case None => None
    case Some(j) => Dedup(names, id, Sanitised(j), 0)
  }

  method FormatPrintName(names: map<seq<byte>, PeerId>, id: PeerId, a1: Option<Text>, a2: Option<Text>,
                         a3: Option<Text>, a4: Option<Text>) returns (r: Option<seq<byte>>)
    ensures r == PrintNameOf(names, id, [a1, a2, a3, a4])
  {
    var joined := JoinParts([a1, a2, a3, a4]);
    if joined.None? {
      return None;
    }
    var j := joined.value;
    var buf := new byte[|j|](k requires 0 <= k < |j| => j[k]);
    assert buf[..] == j;
    SanitiseInPlace(buf);
    r := DedupName(names, id, buf[..]);
  }

  /** The name given to a peer never belongs to another peer, carries no
      newline, and is the sanitised joined parts, possibly followed by
      " #n" for the smallest n from 1 to 9999 that frees it. */
  lemma {:induction false} PrintNameUnique(names: map<seq<byte>, PeerId>, id: PeerId, parts: seq<Option<Text>>)
    requires PrintNameOf(names, id, parts).Some?
    ensures var s := PrintNameOf(names, id, parts).value;
      && Free(names, id, s)
      && Newline !in s
      && exists k | 0 <= k <= 9999 :: s == Candidate(Sanitised(SpaceJoin(Present(parts))), k)
           && forall j | 0 <= j < k :: !Free(names, id, Candidate(Sanitised(SpaceJoin(Present(parts))), j))
  {
    var base := Sanitised(SpaceJoin(Present(parts)));
    DedupFirstFree(names, id, base, 0);
    var s := PrintNameOf(names, id, parts).value;
    var k :| 0 <= k <= 9999 && s == Candidate(base, k) && Free(names, id, s)
             && forall j | 0 <= j < k :: !Free(names, id, Candidate(base, j));
    if k > 0 {
      assert Newline !in [Space, Hash] + Decimal(k) by {
        DecimalDigits(k);
      }
    }
  }

  lemma {:induction false} DecimalDigits(n: nat)
    ensures forall k | 0 <= k < |Decimal(n)| :: '0' as int <= Decimal(n)[k] <= '9' as int
    decreases n
  {
    if n >= 10 {
      DecimalDigits(n / 10);
      var a := Decimal(n);
      assert forall k | 0 <= k < |a| - 1 :: a[k] == Decimal(n / 10)[k];
    }
  }

  /** format_print_name aborts exactly when the joined parts reach 9990
      bytes or every candidate up to " #9999" belongs to another peer. */
  lemma {:induction false} PrintNameAborts(names: map<seq<byte>, PeerId>, id: PeerId, parts: seq<Option<Text>>)
    ensures PrintNameOf(names, id, parts).None?
        <==> |SpaceJoin(Present(parts))| >= 9990
             || forall j | 0 <= j <= 9999 :: !Free(names, id, Candidate(Sanitised(SpaceJoin(Present(parts))), j))
  {
    if |SpaceJoin(Present(parts))| < 9990 {
      DedupAborts(names, id, Sanitised(SpaceJoin(Present(parts))), 0);
    }
  }
}
