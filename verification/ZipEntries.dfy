/** Member names of a directory download: validated once, then made distinct by suffixes. */
module ZipEntries {
  import opened Prelude
  import opened Text

  // ── Names ────────────────────────────────────────────────────────────────────

  predicate Padding(c: char) { c == ' ' || c == '.' }

  /** `part.rstrip(" .")`. */
  function Stripped(part: string): string
  {
    if part != "" && Padding(part[|part| - 1]) then Stripped(part[..|part| - 1]) else part
  }

  predicate Letter(c: char) { 'A' <= c <= 'Z' || 'a' <= c <= 'z' }

  predicate Drive(part: string) { |part| >= 2 && Letter(part[0]) && part[1] == ':' }

  predicate PartOk(part: string) { part != "" && Stripped(part) !in {"", ".", ".."} }

  predicate PartsOk(s: string)
  {
    (forall p :: p in Parts(s) ==> PartOk(p)) && !Drive(Stripped(Parts(s)[0]))
  }

  /** `_validate_zip_arcname`. */
  predicate ValidArcname(s: string)
  {
    s != "" && '\0' !in s && '\\' !in s && s[0] != '/' && PartsOk(s)
  }

  /** Decimal rendering. */
  function Digits(n: nat): (s: string)
    ensures s != "" && forall c :: c in s ==> '0' <= c <= '9'
  {
    (if n < 10 then "" else Digits(n / 10)) + ["0123456789"[n % 10]]
  }

  lemma {:induction false} DigitsInjective(m: nat, n: nat)
    requires Digits(m) == Digits(n)
    ensures m == n
  {
    var a, b := Digits(m), Digits(n);
    assert a[|a| - 1] == b[|b| - 1];
    assert a[..|a| - 1] == b[..|b| - 1];
    assert m % 10 == n % 10;
    if m >= 10 && n >= 10 {
      assert a[..|a| - 1] == Digits(m / 10) && b[..|b| - 1] == Digits(n / 10);
      DigitsInjective(m / 10, n / 10);
    } else {
      assert m < 10 <==> a[..|a| - 1] == "";
      assert n < 10 <==> b[..|b| - 1] == "";
    }
  }

  // ── Candidates ──────────────────────────────────────────────────────────────

  /** `x` put into `s` before index `at`. */
  function Insert(s: string, at: nat, x: string): string
    requires at <= |s|
  {
    seq(|s| + |x|, i requires 0 <= i < |s| + |x| =>
      if i < at then s[i] else if i < at + |x| then x[i - at] else s[i - |x|])
  }

  /** Where the suffix of `original` goes: before its last dot; at the end when nothing follows that
      dot; and, when there is no dot at all, at the very front. */
  function SuffixAt(original: string): nat
  {
    var dot := LastIndex(original, '.');
    if dot < 0 then 0 else if dot == |original| - 1 then |original| else dot
  }

  function Suffix(original: string, n: nat): string
  {
    if LastIndex(original, '.') < 0 && original != "" then "_" + Digits(n) + "." else "_" + Digits(n)
  }

  /** The `n`-th name tried for `original`. */
  function Candidate(original: string, n: nat): string
  {
    if n == 0 then original else Insert(original, SuffixAt(original), Suffix(original, n))
  }

  /** What the code writes: `base, _, ext = original.rpartition(".")`. */
  function Rendered(original: string, n: nat): string
  {
    var dot := LastIndex(original, '.');
    var base, ext := if dot < 0 then "" else original[..dot], if dot < 0 then original else original[dot + 1..];
    if ext != "" then base + "_" + Digits(n) + "." + ext else original + "_" + Digits(n)
  }

  lemma InsertAtFront(s: string, x: string)
    ensures Insert(s, 0, x) == x + s
  {}

  lemma InsertAtEnd(s: string, x: string)
    ensures Insert(s, |s|, x) == s + x
  {}

  lemma InsertAtDot(s: string, dot: nat, x: string)
    requires dot < |s| && s[dot] == '.'
    ensures Insert(s, dot, x) == s[..dot] + x + "." + s[dot + 1..]
  {}

  lemma RenderedIsCandidate(original: string, n: nat)
    requires n > 0
    ensures Rendered(original, n) == Candidate(original, n)
  {
    var dot, d := LastIndex(original, '.'), Digits(n);
    if dot < 0 && original != "" {
      InsertAtFront(original, "_" + d + ".");
      assert "" + "_" + d + "." + original == "_" + d + "." + original;
    } else if 0 <= dot < |original| - 1 {
      InsertAtDot(original, dot, "_" + d);
      assert original[..dot] + ("_" + d) == original[..dot] + "_" + d;
    } else {
      InsertAtEnd(original, "_" + d);
      assert original + ("_" + d) == original + "_" + d;
    }
  }

  /** The digits of `n` can be read off its candidate. */
  lemma DigitsInCandidate(original: string, n: nat)
    requires n > 0
    ensures |Suffix(original, n)| == |Digits(n)| + |Suffix(original, 0)| - |Digits(0)|
    ensures forall k :: 0 <= k < |Digits(n)| ==> Candidate(original, n)[SuffixAt(original) + 1 + k] == Digits(n)[k]
  {
    var at, x := SuffixAt(original), Suffix(original, n);
    forall k | 0 <= k < |Digits(n)| ensures Insert(original, at, x)[at + 1 + k] == Digits(n)[k] {
      assert x[1 + k] == Digits(n)[k];
    }
  }

  lemma CandidatesDistinct(original: string, m: nat, n: nat)
    requires Candidate(original, m) == Candidate(original, n)
    ensures m == n
  {
    if m > 0 && n > 0 {
      DigitsInCandidate(original, m);
      DigitsInCandidate(original, n);
      assert Digits(m) == Digits(n);
      DigitsInjective(m, n);
    }
  }

  // ── Suffixes keep a name valid ──────────────────────────────────────────────

  /** Stripping stops at the last character that is neither a space nor a dot. */
  lemma {:induction false} StrippedKeeps(part: string, k: nat)
    requires k < |part| && !Padding(part[k])
    ensures |Stripped(part)| > k && forall j :: 0 <= j <= k ==> Stripped(part)[j] == part[j]
  {
    if Padding(part[|part| - 1]) { StrippedKeeps(part[..|part| - 1], k); }
  }

  lemma InsertIntoPart(part: string, at: nat, x: string, made: string)
    requires at <= |part| && |x| > 0 && x[0] == '_' && made == Insert(part, at, x)
    ensures PartOk(made)
  {
    assert made[at] == '_';
    StrippedKeeps(made, at);
    assert Stripped(made)[at] == '_';
  }

  lemma InsertMakesNoDrive(part: string, at: nat, x: string)
    requires at <= |part| && |x| > 0 && x[0] == '_' && !Drive(Stripped(part))
    ensures !Drive(Stripped(Insert(part, at, x)))
  {
    var made := Insert(part, at, x);
    var kept := Stripped(made);
    StrippedKeeps(made, at);
    if at == 0 {
      assert kept[0] == '_';
    } else if at == 1 {
      assert kept[1] == '_';
    } else {
      assert kept[0] == part[0] && kept[1] == part[1];
      if part[1] == ':' { StrippedKeeps(part, 1); }
    }
  }

  lemma PartsWhole(s: string)
    requires LastIndex(s, '/') < 0
    ensures PartsOk(s) <==> PartOk(s) && !Drive(Stripped(s))
  {}

  lemma PartsSplitAt(s: string, i: nat, front: string, last: string)
    requires i == LastIndex(s, '/') && s[..i] == front && s[i + 1..] == last
    ensures PartsOk(s) <==> PartsOk(front) && PartOk(last)
  {}

  lemma NoSlashAfter(s: string, at: nat, x: string, i: int)
    requires at <= |s| && '/' !in x && -1 <= i < |s| && forall j :: i < j < |s| ==> s[j] != '/'
    ensures forall j :: (if i < at then i else i + |x|) < j < |Insert(s, at, x)| ==> Insert(s, at, x)[j] != '/'
  {}

  lemma InsertAfterSlash(s: string, at: nat, x: string)
    requires at <= |s| && '/' !in x && LastIndex(s, '/') < at
    ensures LastIndex(Insert(s, at, x), '/') == LastIndex(s, '/')
  {
    var i, made := LastIndex(s, '/'), Insert(s, at, x);
    NoSlashAfter(s, at, x, i);
    if i >= 0 { assert made[i] == s[i]; }
    LastSlash(made, i);
  }

  lemma InsertAfterPieces(s: string, at: nat, x: string, i: nat)
    requires i < at <= |s|
    ensures Insert(s, at, x)[..i] == s[..i] && Insert(s, at, x)[i + 1..] == Insert(s[i + 1..], at - i - 1, x)
  {}

  lemma InsertBeforeSlash(s: string, at: nat, x: string)
    requires at <= LastIndex(s, '/') && '/' !in x
    ensures LastIndex(Insert(s, at, x), '/') == LastIndex(s, '/') + |x|
  {
    var i, made := LastIndex(s, '/'), Insert(s, at, x);
    NoSlashAfter(s, at, x, i);
    assert made[i + |x|] == s[i];
    LastSlash(made, i + |x|);
  }

  lemma InsertBeforePieces(s: string, at: nat, x: string, i: nat)
    requires at <= i < |s|
    ensures Insert(s, at, x)[..i + |x|] == Insert(s[..i], at, x) && Insert(s, at, x)[i + |x| + 1..] == s[i + 1..]
  {}

  lemma InsertInOnlyPart(s: string, at: nat, x: string)
    requires LastIndex(s, '/') < 0 && at <= |s| && |x| > 0 && x[0] == '_' && '/' !in x && PartsOk(s)
    ensures PartsOk(Insert(s, at, x))
  {
    InsertAfterSlash(s, at, x);
    PartsWhole(s);
    InsertIntoPart(s, at, x, Insert(s, at, x));
    InsertMakesNoDrive(s, at, x);
    PartsWhole(Insert(s, at, x));
  }

  lemma LastPartReplaced(s: string, made: string, i: nat)
    requires i == LastIndex(s, '/') == LastIndex(made, '/') && made[..i] == s[..i]
    requires PartsOk(s) && PartOk(made[i + 1..])
    ensures PartsOk(made)
  {}

  lemma InsertInLastPart(s: string, at: nat, x: string, i: nat, made: string)
    requires i == LastIndex(s, '/') == LastIndex(made, '/') && i < at <= |s| && |x| > 0 && x[0] == '_' && PartsOk(s)
    requires made[..i] == s[..i] && made[i + 1..] == Insert(s[i + 1..], at - i - 1, x)
    ensures PartsOk(made)
  {
    InsertIntoPart(s[i + 1..], at - i - 1, x, made[i + 1..]);
    LastPartReplaced(s, made, i);
  }

  lemma InsertInFront(s: string, at: nat, x: string, i: nat)
    requires at <= i == LastIndex(s, '/') && '/' !in x && PartsOk(s) && PartsOk(Insert(s[..i], at, x))
    ensures PartsOk(Insert(s, at, x))
  {
    var front, last := s[..i], s[i + 1..];
    PartsSplitAt(s, i, front, last);
    InsertBeforeSlash(s, at, x);
    InsertBeforePieces(s, at, x, i);
    PartsSplitAt(Insert(s, at, x), i + |x|, Insert(front, at, x), last);
  }

  lemma {:induction false} InsertKeepsParts(s: string, at: nat, x: string)
    requires at <= |s| && |x| > 0 && x[0] == '_' && '/' !in x && PartsOk(s)
    ensures PartsOk(Insert(s, at, x))
    decreases |s|
  {
    var i := LastIndex(s, '/');
    if i < 0 {
      InsertInOnlyPart(s, at, x);
    } else if i < at {
      InsertAfterSlash(s, at, x);
      InsertAfterPieces(s, at, x, i);
      InsertInLastPart(s, at, x, i, Insert(s, at, x));
    } else {
      PartsSplitAt(s, i, s[..i], s[i + 1..]);
      InsertKeepsParts(s[..i], at, x);
      InsertInFront(s, at, x, i);
    }
  }

  lemma InsertedChars(s: string, at: nat, x: string, c: char)
    requires at <= |s| && c !in s && c !in x
    ensures c !in Insert(s, at, x)
  {}

  /** Only the original name is ever validated, and that is enough. */
  lemma CandidateStaysValid(original: string, n: nat)
    requires ValidArcname(original)
    ensures ValidArcname(Candidate(original, n))
  {
    if n > 0 {
      var at, x := SuffixAt(original), Suffix(original, n);
      assert forall c :: c in x ==> c == '_' || c == '.' || '0' <= c <= '9';
      InsertKeepsParts(original, at, x);
      InsertedChars(original, at, x, '\0');
      InsertedChars(original, at, x, '\\');
      assert Candidate(original, n)[0] == if at == 0 then '_' else original[0];
    }
  }

  /** Everything before the last slash. */
  function Folder(s: string): string
  {
    var i := LastIndex(s, '/');
    if i < 0 then "" else s[..i]
  }

  function Name(s: string): string { s[LastIndex(s, '/') + 1..] }

  lemma DotFree(original: string, n: nat)
    ensures '/' !in Suffix(original, n)
  {}

  lemma InTail(s: string, c: char, i: nat)
    requires i < |s|
    ensures c in s[i + 1..] <==> LastIndex(s, c) > i
  {}

  lemma SuffixAtDot(original: string, i: nat)
    requires i < |original| && original[i] != '.'
    ensures SuffixAt(original) > i <==> LastIndex(original, '.') > i
  {}

  /** Whether the name after slash `i` holds the dot that the suffix goes before. */
  lemma SuffixPastSlashIff(original: string, i: nat)
    requires i < |original| && i == LastIndex(original, '/')
    ensures SuffixAt(original) > i <==> '.' in Name(original)
  {}

  /** A renamed duplicate stays in its folder exactly when it is in none, or its own name has a dot:
      the code looks for the dot in the whole path, so other duplicates move to a folder that was
      renamed instead. */
  lemma DuplicateStaysInFolderIff(original: string, n: nat)
    requires ValidArcname(original) && n > 0
    ensures Folder(Candidate(original, n)) == Folder(original) <==> '/' !in original || '.' in Name(original)
  {
    var i, at, x := LastIndex(original, '/'), SuffixAt(original), Suffix(original, n);
    DotFree(original, n);
    if i >= 0 { SuffixPastSlashIff(original, i); }
    if i < at {
      InsertAfterSlash(original, at, x);
      if i >= 0 { InsertAfterPieces(original, at, x, i); }
    } else if i >= 0 {
      InsertBeforeSlash(original, at, x);
      assert |Folder(Candidate(original, n))| == i + |x|;
    }
  }

  // ── Building the entries ────────────────────────────────────────────────────

  /** A listed file, or an attachment placed in a folder named after its parent file's stem. */
  datatype Row =
    | File(relPath: string, fileName: string, key: string)
    | Attachment(relPath: string, parentName: string, fileName: string, key: string)

  function Or(s: string, default: string): string { if s == "" then default else s }

  function Stem(s: string): string
  {
    var dot := LastIndex(s, '.');
    if dot < 0 then s else s[..dot]
  }

  function Join(folder: string, name: string): string { if folder == "" then name else folder + "/" + name }

  function Arcname(r: Row): string
  {
    match r
    case File(rel, name, _) => Join(rel, Or(name, "file"))
    case Attachment(rel, parent, name, _) =>
      Join(rel, Stem(Or(parent, "attachments"))) + "/" + Or(name, "file")
  }

  /** `name` is the first candidate of `original` that is not taken. */
  ghost predicate FirstFree(original: string, seen: set<string>, name: string)
  {
    exists n: nat :: name == Candidate(original, n) && name !in seen
                     && forall m: nat :: m < n ==> Candidate(original, m) in seen
  }

  function Tried(original: string, n: nat): set<string> { set m: nat | m < n :: Candidate(original, m) }

  lemma TriedGrows(original: string, n: nat)
    ensures Candidate(original, n) !in Tried(original, n)
    ensures Tried(original, n + 1) == Tried(original, n) + {Candidate(original, n)}
  {
    forall m: nat | m < n ensures Candidate(original, m) != Candidate(original, n) {
      if Candidate(original, m) == Candidate(original, n) { CandidatesDistinct(original, m, n); }
    }
  }

  /** Tries suffixes until one is free; at most `|seen|` can be taken. */
  method FreeName(original: string, seen: set<string>) returns (name: string)
    ensures FirstFree(original, seen, name)
  {
    name := original;
    var n := 0;
    while name in seen
      invariant name == Candidate(original, n)
      invariant Tried(original, n) <= seen
      decreases |seen - Tried(original, n)|
    {
      TriedGrows(original, n);
      RenderedIsCandidate(original, n + 1);
      assert seen - Tried(original, n + 1) == (seen - Tried(original, n)) - {name};
      n := n + 1;
      name := Rendered(original, n);
    }
    assert forall m: nat :: m < n ==> Candidate(original, m) in Tried(original, n);
  }

  function Names(entries: seq<(string, string)>): set<string> { set e | e in entries :: e.0 }

  ghost predicate Built(rows: seq<Row>, entries: seq<(string, string)>)
  {
    && |entries| == |rows|
    && (forall i :: 0 <= i < |rows| ==>
          entries[i].1 == rows[i].key && FirstFree(Arcname(rows[i]), Names(entries[..i]), entries[i].0))
  }

  lemma NameIsValid(original: string, seen: set<string>, name: string)
    requires ValidArcname(original) && FirstFree(original, seen, name)
    ensures ValidArcname(name) && name !in seen
  {
    var n: nat :| name == Candidate(original, n);
    CandidateStaysValid(original, n);
  }

  lemma NamesAppend(entries: seq<(string, string)>, e: (string, string))
    ensures Names(entries + [e]) == Names(entries) + {e.0}
  {}

  lemma AppendBuilt(rows: seq<Row>, k: nat, entries: seq<(string, string)>, name: string)
    requires k < |rows| && Built(rows[..k], entries)
    requires FirstFree(Arcname(rows[k]), Names(entries), name)
    ensures Built(rows[..k + 1], entries + [(name, rows[k].key)])
  {
    var all := entries + [(name, rows[k].key)];
    forall i | 0 <= i <= k
      ensures all[i].1 == rows[i].key && FirstFree(Arcname(rows[i]), Names(all[..i]), all[i].0)
    {
      assert all[..i] == entries[..i];
      assert entries[..k] == entries;
      if i < k { assert rows[..k][i] == rows[i]; }
    }
  }

  lemma BuiltIsSound(rows: seq<Row>, entries: seq<(string, string)>)
    requires Built(rows, entries) && forall row :: row in rows ==> ValidArcname(Arcname(row))
    ensures forall i, j :: 0 <= i < j < |entries| ==> entries[i].0 != entries[j].0
    ensures forall e :: e in entries ==> ValidArcname(e.0)
  {
    forall j | 0 <= j < |entries| ensures ValidArcname(entries[j].0) && entries[j].0 !in Names(entries[..j]) {
      assert rows[j] in rows;
      NameIsValid(Arcname(rows[j]), Names(entries[..j]), entries[j].0);
    }
    forall i, j | 0 <= i < j < |entries| ensures entries[i].0 != entries[j].0 {
      assert entries[..j][i] in entries[..j];
    }
  }

  lemma FirstFreeIs(original: string, seen: set<string>, name: string, n: nat)
    requires FirstFree(original, seen, name) && Candidate(original, n) !in seen
    requires forall m: nat :: m < n ==> Candidate(original, m) in seen
    ensures name == Candidate(original, n)
  {
    var k: nat :| name == Candidate(original, k) && name !in seen
                  && forall m: nat :: m < k ==> Candidate(original, m) in seen;
    assert k >= n;
    assert k <= n;
  }

  lemma SecondIsSuffixed(original: string, name: string)
    requires FirstFree(original, {original}, name)
    ensures name == Candidate(original, 1)
  {
    assert Candidate(original, 0) == original;
    if Candidate(original, 1) == original { CandidatesDistinct(original, 1, 0); }
    FirstFreeIs(original, {original}, name, 1);
  }

  lemma TwoAlike(rows: seq<Row>, entries: seq<(string, string)>)
    requires |rows| == 2 && Arcname(rows[0]) == Arcname(rows[1]) && Built(rows, entries)
    ensures entries == [(Arcname(rows[0]), rows[0].key), (Candidate(Arcname(rows[0]), 1), rows[1].key)]
  {
    var name := Arcname(rows[0]);
    assert Names(entries[..0]) == {};
    FirstFreeIs(name, {}, entries[0].0, 0);
    assert entries[..1] == [entries[0]] && Names(entries[..1]) == {name};
    SecondIsSuffixed(name, entries[1].0);
  }

  lemma SecondNotes(name: string)
    requires name == "dir/notes"
    ensures Candidate(name, 1) == "_1.dir/notes"
  {
    assert Digits(1) == "1";
    assert LastIndex(name, '.') < 0;
    InsertAtFront(name, "_1.");
    assert "_1." + name == "_1.dir/notes";
  }

  /** Two files `notes` in `dir`: the second one is put in a folder that does not exist. */
  lemma DuplicateLeavesItsFolder(a: string, b: string, entries: seq<(string, string)>)
    requires Built([File("dir", "notes", a), File("dir", "notes", b)], entries)
    ensures entries == [("dir/notes", a), ("_1.dir/notes", b)]
  {
    var rows, name := [File("dir", "notes", a), File("dir", "notes", b)], "dir/notes";
    assert Arcname(rows[0]) == name && Arcname(rows[1]) == name by { assert "dir" + "/" + "notes" == name; }
    TwoAlike(rows, entries);
    SecondNotes(name);
  }

  ghost predicate Progress(rows: seq<Row>, k: nat, entries: seq<(string, string)>, seen: set<string>)
    requires k <= |rows|
  {
    && (forall i :: 0 <= i < k ==> ValidArcname(Arcname(rows[i])))
    && seen == Names(entries) && Built(rows[..k], entries)
  }

  lemma MoreProgress(rows: seq<Row>, k: nat, entries: seq<(string, string)>, seen: set<string>, name: string)
    requires k < |rows| && Progress(rows, k, entries, seen) && ValidArcname(Arcname(rows[k]))
    requires FirstFree(Arcname(rows[k]), seen, name)
    ensures Progress(rows, k + 1, entries + [(name, rows[k].key)], seen + {name})
  {
    AppendBuilt(rows, k, entries, name);
    NamesAppend(entries, (name, rows[k].key));
  }

  /** One entry per row in row order, pairwise distinct, all of them valid member names. */
  method BuildEntries(rows: seq<Row>) returns (r: Result<seq<(string, string)>, Row>)
    ensures r.Ok? <==> forall row :: row in rows ==> ValidArcname(Arcname(row))
    ensures r.Ok? ==> Built(rows, r.value)
    ensures r.Ok? ==> forall i, j :: 0 <= i < j < |r.value| ==> r.value[i].0 != r.value[j].0
    ensures r.Ok? ==> forall e :: e in r.value ==> ValidArcname(e.0)
    ensures r.Err? ==> r.error in rows && !ValidArcname(Arcname(r.error))
  {
    var entries: seq<(string, string)> := [];
    var seen: set<string> := {};
    assert Progress(rows, 0, entries, seen);
    for k := 0 to |rows|
      invariant Progress(rows, k, entries, seen)
    {
      var row := rows[k];
      if !ValidArcname(Arcname(row)) { return Err(row); }
      var name := FreeName(Arcname(row), seen);
      MoreProgress(rows, k, entries, seen, name);
      seen := seen + {name};
      entries := entries + [(name, row.key)];
    }
    assert rows[..|rows|] == rows;
    BuiltIsSound(rows, entries);
    r := Ok(entries);
  }
}
