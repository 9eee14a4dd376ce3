/** What a patch that is accepted looks like, line by line. */
module PatchStrict {
  import opened Results
  import opened Seqs
  import opened PatchGrammar
  import opened PatchApply
  import PatchRoundTrip

  /** Every line is a hunk header, or a body line of one of the four kinds, and no marker comes first in
      a hunk. */
  ghost predicate Strict(raw: seq<string>) {
    && (forall k :: 0 <= k < |raw| ==> IsBodyLine(raw[k]) ==> KindOf(raw[k]) != Unknown)
    && (forall k :: 1 <= k < |raw| && IsBodyLine(raw[k]) && IsMarker(raw[k]) ==> IsBodyLine(raw[k - 1]))
    && (raw != [] ==> !IsBodyLine(raw[0]))
  }

  /** How many body lines of this kind there are. */
  function BodyLines(raw: seq<string>, kind: Kind): nat {
    if raw == [] then 0
    else (if IsBodyLine(raw[0]) && KindOf(raw[0]) == kind then 1 else 0) + BodyLines(raw[1..], kind)
  }

  lemma {:induction false} BodyLinesAppend(a: seq<string>, b: seq<string>, kind: Kind)
    ensures BodyLines(a + b, kind) == BodyLines(a, kind) + BodyLines(b, kind)
  {
    hide IsBodyLine, KindOf;
    if a == [] {
      assert a + b == b;
    } else {
      assert (a + b)[1..] == a[1..] + b;
      BodyLinesAppend(a[1..], b, kind);
    }
  }

  lemma {:induction false} BodyLinesAll(body: seq<string>, kind: Kind)
    requires forall i :: 0 <= i < |body| ==> IsBodyLine(body[i])
    ensures BodyLines(body, kind) == CountKind(body, kind)
  {
    hide IsBodyLine, KindOf;
    if body != [] {
      BodyLinesAll(body[1..], kind);
    }
  }

  lemma {:induction false} KnownLines(body: seq<string>)
    requires UnknownLine(body).None?
    ensures forall i :: 0 <= i < |body| ==> KindOf(body[i]) != Unknown
  {
    hide KindOf;
    if body != [] {
      KnownLines(body[1..]);
      assert forall i :: 1 <= i < |body| ==> body[i] == body[1..][i - 1];
    }
  }

  /** The hunk in front, and what follows it. */
  lemma HunksFront(raw: seq<string>) returns (n: nat, hunk: Hunk)
    requires raw != [] && Hunks(raw).Ok?
    ensures n == LeadingRun(raw[1..], IsBodyLine) && !IsBodyLine(raw[0])
    ensures BodyError(raw[1..1 + n]).None? && Hunks(raw[1 + n..]).Ok?
    ensures hunk.added == CountKind(raw[1..1 + n], Addition) && hunk.removed == CountKind(raw[1..1 + n], Deletion)
    ensures Hunks(raw).value == [hunk] + Hunks(raw[1 + n..]).value
  {
    hide StripEol, MatchHunkHeader, BodyError, SideLines, CountKind, LeadingRun;
    n := LeadingRun(raw[1..], IsBodyLine);
    var h := MatchHunkHeader(StripEol(raw[0])).value;
    hunk := CheckHunk(h, raw[1..1 + n]).value;
  }

  /** The hunks that are read account for every line: nothing is skipped, and the additions and removals
      that are reported are the lines that begin with "+" and "-". */
  lemma {:induction false} HunksAreStrict(raw: seq<string>)
    requires Hunks(raw).Ok?
    ensures Strict(raw)
    ensures Added(Hunks(raw).value) == BodyLines(raw, Addition)
    ensures Removed(Hunks(raw).value) == BodyLines(raw, Deletion)
    decreases |raw|
  {
    if raw != [] {
      var n, hunk := HunksFront(raw);
      var body, rest := raw[1..1 + n], raw[1 + n..];
      HunksAreStrict(rest);
      StrictCons(raw, n);
      Accounted(raw, n, Addition);
      Accounted(raw, n, Deletion);
      hide Hunks, IsBodyLine, KindOf, CountKind, LeadingRun, BodyLines, Strict, BodyError;
      TotalsCons(hunk, Hunks(rest).value);
    }
  }

  lemma TotalsCons(hunk: Hunk, rest: seq<Hunk>)
    ensures Added([hunk] + rest) == hunk.added + Added(rest)
    ensures Removed([hunk] + rest) == hunk.removed + Removed(rest)
  {
    assert ([hunk] + rest)[1..] == rest;
  }

  lemma HeaderCountsNot(raw: seq<string>, kind: Kind)
    requires raw != [] && !IsBodyLine(raw[0])
    ensures BodyLines(raw, kind) == BodyLines(raw[1..], kind)
  {
    hide IsBodyLine, KindOf;
  }

  lemma BodyIsBody(raw: seq<string>, body: seq<string>)
    requires raw != [] && |body| == LeadingRun(raw[1..], IsBodyLine) && body == raw[1..1 + |body|]
    ensures forall i :: 0 <= i < |body| ==> IsBodyLine(body[i])
  {
    forall i | 0 <= i < |body| ensures IsBodyLine(body[i]) {
      assert body[i] == raw[1..][i];
    }
  }

  lemma Accounted(raw: seq<string>, n: nat, kind: Kind)
    requires raw != [] && n == LeadingRun(raw[1..], IsBodyLine) && !IsBodyLine(raw[0])
    ensures BodyLines(raw, kind) == CountKind(raw[1..1 + n], kind) + BodyLines(raw[1 + n..], kind)
  {
    hide KindOf, CountKind, IsBodyLine, LeadingRun, BodyLines;
    var body, rest := raw[1..1 + n], raw[1 + n..];
    HeaderCountsNot(raw, kind);
    BodyIsBody(raw, body);
    assert raw[1..] == body + rest;
    BodyLinesAppend(body, rest, kind);
    BodyLinesAll(body, kind);
  }

  lemma StrictCons(raw: seq<string>, n: nat)
    requires raw != [] && n == LeadingRun(raw[1..], IsBodyLine) && !IsBodyLine(raw[0])
    requires BodyError(raw[1..1 + n]).None? && Strict(raw[1 + n..])
    ensures Strict(raw)
  {
    var body := raw[1..1 + n];
    if body != [] {
      KnownLines(body);
      assert !IsMarker(body[0]);
    }
    assert forall i :: 0 <= i < n ==> IsBodyLine(raw[1..][i]);
    hide IsBodyLine, KindOf, LeadingRun, BodyError, Strict, IsMarker;
    forall k | 1 <= k < |raw|
      ensures IsBodyLine(raw[k]) ==> KindOf(raw[k]) != Unknown
      ensures IsBodyLine(raw[k]) && IsMarker(raw[k]) ==> IsBodyLine(raw[k - 1])
    {
      StrictAt(raw, n, k);
    }
    StrictIs(raw);
  }

  lemma StrictIs(raw: seq<string>)
    requires raw != [] ==> !IsBodyLine(raw[0])
    requires forall k :: 1 <= k < |raw| ==>
               && (IsBodyLine(raw[k]) ==> KindOf(raw[k]) != Unknown)
               && (IsBodyLine(raw[k]) && IsMarker(raw[k]) ==> IsBodyLine(raw[k - 1]))
    ensures Strict(raw)
  {
    hide IsBodyLine, KindOf, IsMarker;
  }

  lemma StrictAt(raw: seq<string>, n: nat, k: nat)
    requires raw != [] && n < |raw| && 1 <= k < |raw|
    requires forall i :: 0 <= i < n ==> IsBodyLine(raw[1..][i]) && KindOf(raw[1..1 + n][i]) != Unknown
    requires n > 0 ==> !IsMarker(raw[1])
    requires Strict(raw[1 + n..])
    ensures IsBodyLine(raw[k]) ==> KindOf(raw[k]) != Unknown
    ensures IsBodyLine(raw[k]) && IsMarker(raw[k]) ==> IsBodyLine(raw[k - 1])
  {
    hide IsBodyLine, KindOf, IsMarker;
    var rest := raw[1 + n..];
    if k <= n {
      assert raw[k] == raw[1..][k - 1] == raw[1..1 + n][k - 1];
      assert k > 1 ==> raw[k - 1] == raw[1..][k - 2];
    } else {
      assert raw[k] == rest[k - 1 - n];
      assert k > 1 + n ==> raw[k - 1] == rest[k - 2 - n];
    }
  }

  /** An accepted patch: both names lead to the target, and all other lines are accounted for. */
  lemma ParseIsStrict(raw: seq<string>, target: string)
    requires Parse(raw, target).Ok?
    ensures |raw| > 2 && OLD_MARK <= raw[0] && NEW_MARK <= raw[1]
    ensures NormalizeName(HeaderName(raw[0], OLD_MARK)) == NormalizeName(target)
    ensures NormalizeName(HeaderName(raw[1], NEW_MARK)) == NormalizeName(target)
    ensures Strict(raw[2..])
    ensures Added(Parse(raw, target).value) == BodyLines(raw[2..], Addition)
    ensures Removed(Parse(raw, target).value) == BodyLines(raw[2..], Deletion)
  {
    hide Hunks, NormalizeName, HeaderName;
    HunksAreStrict(raw[2..]);
    if |raw| == 2 {
      NoHunks(raw[2..]);
    }
    hide Strict;
  }

  lemma NoHunks(raw: seq<string>)
    requires raw == []
    ensures Hunks(raw) == Ok([])
  {
  }

  // ---- hunk headers ----

  predicate Digits(s: string, n: nat) {
    s != [] && (forall i :: 0 <= i < |s| ==> IsDigit(s[i])) && Number(s) == n
  }

  /** A comma and the count, or nothing for a count of one. */
  ghost predicate CountWritten(s: string, n: nat) {
    (s == "" && n == 1) || (s != "" && s[0] == ',' && Digits(s[1..], n))
  }

  /** The line begins as a hunk header with these four numbers. */
  ghost predicate HeaderWritten(line: string, h: Header) {
    exists a, ca, b, cb ::
      && Digits(a, h.oldStart) && CountWritten(ca, h.oldCount) && Digits(b, h.newStart) && CountWritten(cb, h.newCount)
      && "@@ -" + (a + (ca + (" +" + (b + (cb + " @@"))))) <= line
  }

  lemma ReadDigits(a: string, n: nat, rest: string)
    requires Digits(a, n) && (rest == [] || !IsDigit(rest[0]))
    ensures ReadNumber(a + rest) == Some((n, rest))
  {
    LeadingRunIs(a + rest, IsDigit, |a|);
    assert (a + rest)[..|a|] == a && (a + rest)[|a|..] == rest;
  }

  lemma DigitsRead(s: string) returns (a: string)
    requires ReadNumber(s).Some?
    ensures var (n, rest) := ReadNumber(s).value;
            Digits(a, n) && s == a + rest && (rest == [] || !IsDigit(rest[0]))
  {
    a := s[..LeadingRun(s, IsDigit)];
  }

  lemma ReadWritten(c: string, n: nat, rest: string)
    requires CountWritten(c, n) && rest != [] && !IsDigit(rest[0]) && rest[0] != ','
    ensures ReadCount(c + rest) == (n, rest)
    ensures !IsDigit((c + rest)[0])
  {
    if c == "" {
      assert c + rest == rest;
    } else {
      assert (c + rest)[1..] == c[1..] + rest;
      ReadDigits(c[1..], n, rest);
    }
  }

  lemma WrittenRead(s: string) returns (c: string)
    ensures var (n, rest) := ReadCount(s); CountWritten(c, n) && s == c + rest
  {
    if s != [] && s[0] == ',' && LeadingRun(s[1..], IsDigit) > 0 {
      var a := DigitsRead(s[1..]);
      c := [s[0]] + a;
      assert c[1..] == a;
    } else {
      c := "";
    }
  }

  lemma HeaderRead(a: string, ca: string, b: string, cb: string, rest: string, h: Header)
    requires Digits(a, h.oldStart) && CountWritten(ca, h.oldCount)
    requires Digits(b, h.newStart) && CountWritten(cb, h.newCount)
    ensures MatchHunkHeader("@@ -" + (a + (ca + (" +" + (b + (cb + (" @@" + rest))))))) == Some(h)
  {
    hide Digits, CountWritten, ReadNumber, ReadCount, After;
    var s6 := " @@" + rest;
    var s4 := b + (cb + s6);
    var s3 := " +" + s4;
    ReadWritten(cb, h.newCount, s6);
    ReadDigits(b, h.newStart, cb + s6);
    ReadWritten(ca, h.oldCount, s3);
    ReadDigits(a, h.oldStart, ca + s3);
    PatchRoundTrip.AfterPrefix("@@ -", a + (ca + s3));
    PatchRoundTrip.AfterPrefix(" +", s4);
  }

  /** A line is read as a hunk header exactly if it begins with one, in any number of digits, and whatever
      follows. */
  lemma HeaderExact(line: string, h: Header)
    ensures MatchHunkHeader(line) == Some(h) <==> HeaderWritten(line, h)
  {
    if MatchHunkHeader(line) == Some(h) {
      WrittenHeader(line, h);
    }
    if HeaderWritten(line, h) {
      HeaderParts(line, h);
    }
  }

  lemma HeaderParts(line: string, h: Header)
    requires HeaderWritten(line, h)
    ensures MatchHunkHeader(line) == Some(h)
  {
    hide Digits, CountWritten, MatchHunkHeader;
    var a, ca, b, cb :| Digits(a, h.oldStart) && CountWritten(ca, h.oldCount) && Digits(b, h.newStart)
      && CountWritten(cb, h.newCount) && "@@ -" + (a + (ca + (" +" + (b + (cb + " @@"))))) <= line;
    var head := "@@ -" + (a + (ca + (" +" + (b + (cb + " @@")))));
    var rest := line[|head|..];
    assert line == head + rest;
    assert line == "@@ -" + (a + (ca + (" +" + (b + (cb + (" @@" + rest))))));
    HeaderRead(a, ca, b, cb, rest, h);
  }

  lemma WrittenHeader(line: string, h: Header)
    requires MatchHunkHeader(line) == Some(h)
    ensures HeaderWritten(line, h)
  {
    hide Digits, CountWritten, ReadNumber, ReadCount;
    var s1 := After(line, "@@ -").value;
    var a := DigitsRead(s1);
    var s2 := ReadNumber(s1).value.1;
    var ca := WrittenRead(s2);
    var s3 := ReadCount(s2).1;
    var s4 := After(s3, " +").value;
    var b := DigitsRead(s4);
    var s5 := ReadNumber(s4).value.1;
    var cb := WrittenRead(s5);
    var s6 := ReadCount(s5).1;
    assert line == "@@ -" + s1 && s3 == " +" + s4;
    Assembled(line, a, ca, b, cb, s6);
  }

  lemma Assembled(line: string, a: string, ca: string, b: string, cb: string, rest: string)
    requires line == "@@ -" + (a + (ca + (" +" + (b + (cb + rest))))) && " @@" <= rest
    ensures "@@ -" + (a + (ca + (" +" + (b + (cb + " @@"))))) <= line
  {
    var tail := rest[3..];
    assert rest == " @@" + tail;
    assert line == "@@ -" + (a + (ca + (" +" + (b + (cb + " @@"))))) + tail;
  }
}
