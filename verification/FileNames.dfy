/**
 Recording file names: what the recorder, the audit service and the corpus tool write, how
 the batch fallback reads a phone id back from a stem, and which file it picks per phone.
 */
module FileNames {
  import opened Options

  // ----- Decimal text -----

  predicate IsDigit(c: char) {
    '0' <= c <= '9'
  }

  function DigitOf(d: nat): (c: char)
    requires d < 10
    ensures IsDigit(c) && DigitValue(c) == d
  {
    '0' + d as char
  }

  function DigitValue(c: char): (d: nat)
    requires IsDigit(c)
    ensures d < 10
  {
    (c - '0') as nat
  }

  function Digits(n: nat): (s: string)
    ensures |s| > 0 && forall c | c in s :: IsDigit(c)
  {
    if n < 10 then [DigitOf(n)] else Digits(n / 10) + [DigitOf(n % 10)]
  }

  /** An integer as text. */
  function Text(k: int): (s: string)
    ensures |s| > 0 && IsDigit(s[|s| - 1]) && forall c | c in s :: IsDigit(c) || c == '-'
  {
    if k < 0 then "-" + Digits(-k) else Digits(k)
  }

  // ----- Reading an integer, as the language's `int` does on ASCII text -----

  predicate IsSpace(c: char) {
    '\t' <= c <= '\r' || '\U{1c}' <= c <= ' '
  }

  function TrimLeft(s: string): string {
    if s != [] && IsSpace(s[0]) then TrimLeft(s[1..]) else s
  }

  function TrimRight(s: string): string {
    if s != [] && IsSpace(s[|s| - 1]) then TrimRight(s[..|s| - 1]) else s
  }

  /** Digits, with single underscores allowed between two of them. */
  function ReadDigits(s: string): (r: Option<int>)
    ensures r.Some? ==> r.value >= 0
  {
    if s == [] || !IsDigit(s[|s| - 1]) then None
    else if |s| == 1 then Some(DigitValue(s[0]))
    else
      var front := s[..|s| - 1];
      var high := ReadDigits(if front[|front| - 1] == '_' then front[..|front| - 1] else front);
      if high == None then None else Some(10 * high.value + DigitValue(s[|s| - 1]))
  }

  function ReadSigned(s: string): Option<int> {
    if s != [] && s[0] == '-' then
      var n := ReadDigits(s[1..]);
      if n == None then None else Some(-n.value)
    else
      var n := ReadDigits(if s != [] && s[0] == '+' then s[1..] else s);
      if n == None then None else Some(n.value)
  }

  function ReadInt(s: string): Option<int> {
    ReadSigned(TrimRight(TrimLeft(s)))
  }

  // ----- Splitting -----

  function BeforeUnderscore(s: string): string {
    if s == [] || s[0] == '_' then [] else [s[0]] + BeforeUnderscore(s[1..])
  }

  predicate StartsWith(s: string, prefix: string) {
    prefix <= s
  }

  predicate EndsWith(s: string, suffix: string) {
    |suffix| <= |s| && s[|s| - |suffix|..] == suffix
  }

  /** Where the last occurrence starts. */
  function LastIndexOf(s: string, part: string): (i: Option<nat>)
    ensures i.Some? ==> i.value + |part| <= |s| && s[i.value..i.value + |part|] == part
  {
    if EndsWith(s, part) then Some(|s| - |part|)
    else if s == [] then None
    else
      var i := LastIndexOf(s[..|s| - 1], part);
      assert i.Some? ==> s[..|s| - 1][i.value..i.value + |part|] == s[i.value..i.value + |part|];
      i
  }

  function ExtractPhoneId(stem: string): Option<int> {
    if EndsWith(stem, "_beamformed") || stem == "beamformed" then None
    else if '_' in stem && ReadInt(BeforeUnderscore(stem)).Some? then ReadInt(BeforeUnderscore(stem))
    else if StartsWith(stem, "ch") && ReadInt(stem[2..]).Some? then ReadInt(stem[2..])
    else
      var at := LastIndexOf(stem, "_phone");
      if at.Some? && ReadInt(stem[at.value + 6..]).Some? then ReadInt(stem[at.value + 6..])
      else if StartsWith(stem, "phone") then ReadInt(stem[5..])
      else None
  }

  // ----- What the writers write -----

  function PhoneStem(runId: string, pid: int): string {
    runId + "_phone" + Text(pid)
  }

  function BeamformedStem(runId: string): string {
    runId + "_beamformed"
  }

  function AuditStem(pid: int, millis: int): string {
    Text(pid) + "_" + Text(millis)
  }

  function ChannelStem(j: int): string {
    "ch" + Text(j)
  }

  // ----- Printing and reading integers -----

  lemma {:induction false} ReadDigitsOfDigits(n: nat)
    ensures ReadDigits(Digits(n)) == Some(n)
  {
    if n >= 10 {
      ReadDigitsOfDigits(n / 10);
      var s := Digits(n);
      var front := s[..|s| - 1];
      assert front == Digits(n / 10);
      assert front[|front| - 1] in front;
      assert 10 * (n / 10) + n % 10 == n;
    }
  }

  lemma TextUntrimmed(k: int)
    ensures TrimRight(TrimLeft(Text(k))) == Text(k)
  {
    hide Digits;
    var s := Text(k);
    assert s[0] in s && s[|s| - 1] in s;
    assert !IsSpace(s[0]) && !IsSpace(s[|s| - 1]);
  }

  lemma ReadIntOfText(k: int)
    ensures ReadInt(Text(k)) == Some(k)
  {
    hide Digits, ReadDigits, TrimLeft, TrimRight;
    TextUntrimmed(k);
    var s := Text(k);
    if k < 0 {
      assert s[1..] == Digits(-k);
      ReadDigitsOfDigits(-k);
    } else {
      assert s[0] in s && IsDigit(s[0]);
      ReadDigitsOfDigits(k);
    }
  }

  predicate Blank(s: string) {
    forall i | 0 <= i < |s| :: s[i] in "\t\n\U{b}\U{c}\r\U{1c}\U{1d}\U{1e}\U{1f} "
  }

  lemma {:induction false} TrimLeftBlank(a: string, s: string)
    requires Blank(a) && s != [] && !IsSpace(s[0])
    ensures TrimLeft(a + s) == s
  {
    if a == [] {
      assert a + s == s;
    } else {
      TrimLeftBlank(a[1..], s);
      assert (a + s)[1..] == a[1..] + s;
    }
  }

  lemma {:induction false} TrimRightBlank(s: string, b: string)
    requires Blank(b) && s != [] && !IsSpace(s[|s| - 1])
    ensures TrimRight(s + b) == s
  {
    if b == [] {
      assert s + b == s;
    } else {
      TrimRightBlank(s, b[..|b| - 1]);
      assert (s + b)[..|s + b| - 1] == s + b[..|b| - 1];
    }
  }

  /** Blanks around an integer are ignored, and so is a plus sign. */
  lemma ReadIntBlanks(a: string, k: int, b: string)
    requires Blank(a) && Blank(b)
    ensures ReadInt(a + Text(k) + b) == Some(k)
    ensures k >= 0 ==> ReadInt(a + "+" + Text(k) + b) == Some(k)
  {
    hide Digits, ReadDigits, TrimLeft, TrimRight;
    var s := Text(k);
    assert s[0] in s;
    TrimRightBlank(s, b);
    TrimLeftBlank(a, s + b);
    assert a + s + b == a + (s + b);
    ReadIntOfText(k);
    TextUntrimmed(k);
    if k >= 0 {
      var t := "+" + s;
      TrimRightBlank(t, b);
      TrimLeftBlank(a, t + b);
      assert a + "+" + s + b == a + (t + b) && t[1..] == s;
      ReadDigitsOfDigits(k);
    }
  }

  lemma ReadAfterUnderscore(a: string, c: char)
    requires a != [] && IsDigit(c)
    ensures ReadDigits(a + "_" + [c])
            == (var high := ReadDigits(a); if high == None then None else Some(10 * high.value + DigitValue(c)))
  {
    var s := a + "_" + [c];
    var front := s[..|s| - 1];
    assert front == a + "_" && front[..|front| - 1] == a;
  }

  lemma NotDigitAtEnd(s: string)
    requires s == [] || !IsDigit(s[|s| - 1])
    ensures ReadDigits(s) == None
  {
  }

  /** A single underscore between two digits is skipped; two in a row, or one at an end, are not allowed. */
  lemma ReadDigitsUnderscore(n: nat, d: nat)
    requires d < 10
    ensures ReadDigits(Digits(n) + "_" + [DigitOf(d)]) == Some(10 * n + d)
    ensures ReadDigits(Digits(n) + "__" + [DigitOf(d)]) == None
    ensures ReadDigits(Digits(n) + "_") == None && ReadDigits("_" + [DigitOf(d)]) == None
  {
    hide Digits, ReadDigits;
    var c := DigitOf(d);
    ReadDigitsOfDigits(n);
    ReadAfterUnderscore(Digits(n), c);
    NotDigitAtEnd(Digits(n) + "_");
    ReadAfterUnderscore(Digits(n) + "_", c);
    assert Digits(n) + "__" + [c] == Digits(n) + "_" + "_" + [c];
    NothingBeforeUnderscore(c);
  }

  lemma NothingBeforeUnderscore(c: char)
    requires IsDigit(c)
    ensures ReadDigits("_" + [c]) == None
  {
    assert ("_" + [c])[..1] == "_" && "_"[..0] == [];
  }

  /** Characters an integer text can hold. */
  predicate Numeric(c: char) {
    IsDigit(c) || IsSpace(c) || c == '_' || c == '-' || c == '+'
  }

  lemma {:induction false} ReadDigitsNumeric(s: string, i: nat)
    requires ReadDigits(s).Some? && i < |s|
    ensures Numeric(s[i])
  {
    if i < |s| - 1 {
      var front := s[..|s| - 1];
      var high := if front[|front| - 1] == '_' then front[..|front| - 1] else front;
      if i < |high| {
        ReadDigitsNumeric(high, i);
      }
    }
  }

  lemma {:induction false} TrimLeftKeeps(s: string, i: nat)
    requires i < |s| && !Numeric(s[i])
    ensures s[i] in TrimLeft(s)
  {
    if IsSpace(s[0]) {
      TrimLeftKeeps(s[1..], i - 1);
    }
  }

  lemma {:induction false} TrimRightKeeps(s: string, i: nat)
    requires i < |s| && !Numeric(s[i])
    ensures s[i] in TrimRight(s)
  {
    if IsSpace(s[|s| - 1]) {
      TrimRightKeeps(s[..|s| - 1], i);
    }
  }

  /** A text with a letter in it is not an integer. */
  lemma ReadIntNumeric(s: string, i: nat)
    requires i < |s| && !Numeric(s[i])
    ensures ReadInt(s) == None
  {
    TrimLeftKeeps(s, i);
    var t := TrimLeft(s);
    var j :| 0 <= j < |t| && t[j] == s[i];
    TrimRightKeeps(t, j);
    var u := TrimRight(t);
    var k :| 0 <= k < |u| && u[k] == s[i];
    if ReadInt(s).Some? {
      if u[0] == '-' || u[0] == '+' {
        ReadDigitsNumeric(u[1..], k - 1);
      } else {
        ReadDigitsNumeric(u, k);
      }
    }
  }

  // ----- Splitting lemmas -----

  lemma {:induction false} BeforeUnderscoreOf(a: string, b: string)
    ensures BeforeUnderscore(a + "_" + b) == BeforeUnderscore(a)
    ensures '_' !in a ==> BeforeUnderscore(a) == a
  {
    if a == [] {
      assert a + "_" + b == "_" + b;
    } else {
      BeforeUnderscoreOf(a[1..], b);
      assert (a + "_" + b)[1..] == a[1..] + "_" + b;
    }
  }

  lemma EndsWithEdges(s: string, part: string)
    requires part != [] && EndsWith(s, part)
    ensures s[|s| - 1] == part[|part| - 1] && s[|s| - |part|] == part[0]
  {
  }

  /** An occurrence is the last one when its last character does not come again. */
  lemma {:induction false} LastIndexIs(s: string, part: string, i: nat)
    requires part != [] && i + |part| <= |s| && s[i..i + |part|] == part
    requires forall k | i + |part| <= k < |s| :: s[k] != part[|part| - 1]
    ensures LastIndexOf(s, part) == Some(i)
  {
    if i + |part| < |s| {
      if EndsWith(s, part) {
        EndsWithEdges(s, part);
      }
      var front := s[..|s| - 1];
      assert front[i..i + |part|] == s[i..i + |part|];
      LastIndexIs(front, part, i);
    }
  }

  lemma NotBeamformed(s: string)
    requires s != [] && s[|s| - 1] != 'd'
    ensures !EndsWith(s, "_beamformed") && s != "beamformed"
  {
  }

  lemma {:induction false} NoUnderscoreNoIndex(s: string)
    requires '_' !in s
    ensures LastIndexOf(s, "_phone") == None
  {
    if EndsWith(s, "_phone") {
      EndsWithEdges(s, "_phone");
    }
    if s != [] {
      NoUnderscoreNoIndex(s[..|s| - 1]);
    }
  }

  // ----- Writers against the reader -----

  lemma PhoneStemSplit(runId: string, pid: int)
    ensures '_' in PhoneStem(runId, pid)
    ensures BeforeUnderscore(PhoneStem(runId, pid)) == BeforeUnderscore(runId)
  {
    hide BeforeUnderscore, Text;
    var rest := "phone" + Text(pid);
    assert "_phone" == "_" + "phone";
    assert PhoneStem(runId, pid) == runId + "_" + rest;
    BeforeUnderscoreOf(runId, rest);
    assert (runId + "_" + rest)[|runId|] == '_';
  }

  lemma PhoneStemTail(runId: string, pid: int)
    ensures LastIndexOf(PhoneStem(runId, pid), "_phone") == Some(|runId|)
    ensures PhoneStem(runId, pid)[|runId| + 6..] == Text(pid)
  {
    hide LastIndexOf, Text;
    var stem := PhoneStem(runId, pid);
    var part := "_phone";
    assert stem[|runId| + 6..] == Text(pid);
    assert stem[|runId|..|runId| + 6] == part;
    forall k | |runId| + 6 <= k < |stem| ensures stem[k] != part[5] {
      assert stem[k] == Text(pid)[k - |runId| - 6];
      assert stem[k] in Text(pid);
    }
    LastIndexIs(stem, part, |runId|);
  }

  lemma PhoneStemNotChannel(runId: string, pid: int)
    ensures StartsWith(PhoneStem(runId, pid), "ch") ==> ReadInt(PhoneStem(runId, pid)[2..]) == None
  {
    hide ReadInt, Text;
    var stem := PhoneStem(runId, pid);
    if StartsWith(stem, "ch") {
      assert stem[0] == 'c' && stem[1] == 'h';
      assert |runId| != 0 && |runId| != 1;
      assert stem[2..][|runId| - 1] == 'p';
      ReadIntNumeric(stem[2..], |runId| - 1);
    }
  }

  /**
   The recorder's file of a phone reads back as that phone, unless what precedes the run id's
   first underscore is itself an integer, which then wins.
   */
  lemma RecorderNameRead(runId: string, pid: int)
    ensures
      var leading := ReadInt(BeforeUnderscore(runId));
      ExtractPhoneId(PhoneStem(runId, pid)) == if leading.Some? then leading else Some(pid)
  {
    hide ReadInt, LastIndexOf, BeforeUnderscore, Text, EndsWith;
    NotBeamformed(PhoneStem(runId, pid));
    PhoneStemSplit(runId, pid);
    PhoneStemTail(runId, pid);
    PhoneStemNotChannel(runId, pid);
    ReadIntOfText(pid);
  }

  lemma RecorderNameReadIff(runId: string, pid: int)
    ensures ExtractPhoneId(PhoneStem(runId, pid)) == Some(pid)
       <==> ReadInt(BeforeUnderscore(runId)) in {None, Some(pid)}
  {
    RecorderNameRead(runId, pid);
  }

  /** The default run id never interferes. */
  lemma DefaultRunIdRead(stamp: string, pid: int)
    ensures ExtractPhoneId(PhoneStem("toggle-" + stamp, pid)) == Some(pid)
  {
    var runId := "toggle-" + stamp;
    var first := BeforeUnderscore(runId);
    assert runId[0] == 't' && first[0] == 't';
    ReadIntNumeric(first, 0);
    RecorderNameRead(runId, pid);
  }

  lemma BeamformedNameRead(runId: string)
    ensures ExtractPhoneId(BeamformedStem(runId)) == None
  {
  }

  lemma AuditNameRead(pid: int, millis: int)
    ensures ExtractPhoneId(AuditStem(pid, millis)) == Some(pid)
  {
    NotBeamformed(AuditStem(pid, millis));
    BeforeUnderscoreOf(Text(pid), Text(millis));
    ReadIntOfText(pid);
    assert AuditStem(pid, millis)[|Text(pid)|] == '_';
  }

  lemma ChannelNameRead(j: int)
    ensures ExtractPhoneId(ChannelStem(j)) == Some(j)
  {
    NotBeamformed(ChannelStem(j));
    assert '_' !in ChannelStem(j);
    assert ChannelStem(j)[2..] == Text(j);
    ReadIntOfText(j);
  }

  lemma BareNameRead(j: int)
    ensures ExtractPhoneId("phone" + Text(j)) == Some(j)
  {
    var stem := "phone" + Text(j);
    NotBeamformed(stem);
    assert '_' !in stem;
    assert stem[0] == 'p';
    NoUnderscoreNoIndex(stem);
    assert stem[5..] == Text(j);
    ReadIntOfText(j);
  }

  /** Different phones never share a file, whatever the run id. */
  lemma PhoneStemsDiffer(runId: string, a: int, b: int)
    requires PhoneStem(runId, a) == PhoneStem(runId, b)
    ensures a == b
  {
    assert PhoneStem(runId, a)[|runId| + 6..] == Text(a);
    assert PhoneStem(runId, b)[|runId| + 6..] == Text(b);
    ReadIntOfText(a);
    ReadIntOfText(b);
  }

  // ----- Picking files -----

  datatype File = File(stem: string, mtime: real)

  function Insert(f: File, files: seq<File>): seq<File> {
    if files == [] || f.mtime >= files[0].mtime then [f] + files
    else [files[0]] + Insert(f, files[1..])
  }

  /** Newest first; files of the same age keep the directory's order. */
  function NewestFirst(files: seq<File>): seq<File> {
    if files == [] then [] else Insert(files[0], NewestFirst(files[1..]))
  }

  predicate Descending(files: seq<File>) {
    forall i, j | 0 <= i < j < |files| :: files[i].mtime >= files[j].mtime
  }

  lemma {:induction false} InsertKeeps(f: File, files: seq<File>)
    ensures multiset(Insert(f, files)) == multiset{f} + multiset(files)
    ensures forall g :: g in Insert(f, files) <==> g == f || g in files
  {
    if !(files == [] || f.mtime >= files[0].mtime) {
      InsertKeeps(f, files[1..]);
      assert files == [files[0]] + files[1..];
    }
  }

  lemma {:induction false} InsertSorted(f: File, files: seq<File>)
    requires Descending(files)
    ensures Descending(Insert(f, files))
  {
    if !(files == [] || f.mtime >= files[0].mtime) {
      var rest := Insert(f, files[1..]);
      InsertSorted(f, files[1..]);
      InsertKeeps(f, files[1..]);
      forall k | 0 <= k < |rest| ensures files[0].mtime >= rest[k].mtime {
        assert rest[k] in rest;
      }
    }
  }

  lemma {:induction false} NewestFirstSorts(files: seq<File>)
    ensures Descending(NewestFirst(files)) && multiset(NewestFirst(files)) == multiset(files)
  {
    if files != [] {
      NewestFirstSorts(files[1..]);
      InsertSorted(files[0], NewestFirst(files[1..]));
      InsertKeeps(files[0], NewestFirst(files[1..]));
      assert files == [files[0]] + files[1..];
    }
  }

  /** The files of one phone, in the order given. */
  function OfPhone(files: seq<File>, pid: int): seq<File> {
    if files == [] then []
    else
      var f := files[|files| - 1];
      OfPhone(files[..|files| - 1], pid) + (if ExtractPhoneId(f.stem) == Some(pid) then [f] else [])
  }

  /** The directory's files newest first, of one phone if one is asked for. */
  function ListBatchFiles(directory: seq<File>, phoneId: Option<int>): seq<File> {
    if phoneId == None then NewestFirst(directory) else OfPhone(NewestFirst(directory), phoneId.value)
  }

  lemma {:induction false} OfPhoneMembers(files: seq<File>, pid: int)
    ensures forall f :: f in OfPhone(files, pid) <==> f in files && ExtractPhoneId(f.stem) == Some(pid)
  {
    hide ExtractPhoneId;
    if files != [] {
      var front := files[..|files| - 1];
      OfPhoneMembers(front, pid);
      assert files == front + [files[|files| - 1]];
    }
  }

  lemma {:induction false} OfPhoneDescends(files: seq<File>, pid: int)
    requires Descending(files)
    ensures Descending(OfPhone(files, pid))
  {
    hide ExtractPhoneId;
    if files != [] {
      var front := files[..|files| - 1];
      var kept := OfPhone(front, pid);
      OfPhoneDescends(front, pid);
      OfPhoneMembers(front, pid);
      forall i | 0 <= i < |kept| ensures kept[i].mtime >= files[|files| - 1].mtime {
        assert kept[i] in kept;
      }
    }
  }

  lemma SameFiles(directory: seq<File>)
    ensures forall f :: f in NewestFirst(directory) <==> f in directory
  {
    NewestFirstSorts(directory);
    forall f ensures f in NewestFirst(directory) <==> f in directory {
      assert f in NewestFirst(directory) <==> f in multiset(NewestFirst(directory));
      assert f in directory <==> f in multiset(directory);
    }
  }

  /** A newest file of the phone. */
  predicate IsNewestOf(directory: seq<File>, pid: int, f: File) {
    && f in directory
    && ExtractPhoneId(f.stem) == Some(pid)
    && forall g | g in directory && ExtractPhoneId(g.stem) == Some(pid) :: g.mtime <= f.mtime
  }

  /** The listing for a phone holds exactly its files, sorted, so it starts with a newest one. */
  lemma ListedAreThePhones(directory: seq<File>, pid: int)
    ensures
      var files := ListBatchFiles(directory, Some(pid));
      && (forall f :: f in files <==> f in directory && ExtractPhoneId(f.stem) == Some(pid))
      && Descending(files)
      && (files != [] ==> IsNewestOf(directory, pid, files[0]))
  {
    hide ExtractPhoneId, NewestFirst;
    NewestFirstSorts(directory);
    SameFiles(directory);
    OfPhoneMembers(NewestFirst(directory), pid);
    OfPhoneDescends(NewestFirst(directory), pid);
  }

  ghost predicate IsPick(directory: seq<File>, result: map<int, File>) {
    && (forall pid :: pid in result <==> exists f :: f in directory && ExtractPhoneId(f.stem) == Some(pid))
    && (forall pid | pid in result :: IsNewestOf(directory, pid, result[pid]))
  }

  ghost predicate IsFirst(files: seq<File>, result: map<int, File>) {
    forall pid ::
      && (pid in result <==> OfPhone(files, pid) != [])
      && (pid in result ==> result[pid] == OfPhone(files, pid)[0])
  }

  /**
   One pass over the files newest first: every phone with a file gets one of its newest, the
   first of its own listing, and no other phone gets anything.
   */
  method PickMostRecentPerPhone(directory: seq<File>) returns (result: map<int, File>)
    ensures IsPick(directory, result)
    ensures forall pid | pid in result ::
      var files := ListBatchFiles(directory, Some(pid));
      files != [] && result[pid] == files[0]
  {
    hide ExtractPhoneId, NewestFirst, IsPick;
    var files := NewestFirst(directory);
    result := map[];
    for i := 0 to |files|
      invariant IsFirst(files[..i], result)
    {
      assert files[..i + 1][..i] == files[..i];
      var id := ExtractPhoneId(files[i].stem);
      if id.Some? && id.value !in result {
        result := result[id.value := files[i]];
      }
    }
    assert files[..|files|] == files;
    FirstIsPick(directory, result);
  }

  lemma FirstIsPick(directory: seq<File>, result: map<int, File>)
    requires IsFirst(NewestFirst(directory), result)
    ensures IsPick(directory, result)
  {
    hide ExtractPhoneId, NewestFirst, OfPhone;
    forall pid
      ensures pid in result <==> exists f :: f in directory && ExtractPhoneId(f.stem) == Some(pid)
      ensures pid in result ==> IsNewestOf(directory, pid, result[pid])
    {
      ListedAreThePhones(directory, pid);
      var files := OfPhone(NewestFirst(directory), pid);
      if files != [] {
        assert files[0] in files;
      }
      if f :| f in directory && ExtractPhoneId(f.stem) == Some(pid) {
        assert f in files;
      }
    }
  }

  /** A directory holding one recording: every phone's file is found again, and nothing else. */
  lemma RecordingFound(directory: seq<File>, runId: string, ids: seq<int>, result: map<int, File>)
    requires ReadInt(BeforeUnderscore(runId)) == None
    requires forall f | f in directory ::
      f.stem == BeamformedStem(runId) || exists pid :: pid in ids && f.stem == PhoneStem(runId, pid)
    requires forall pid | pid in ids :: exists f :: f in directory && f.stem == PhoneStem(runId, pid)
    requires IsPick(directory, result)
    ensures result.Keys == set pid | pid in ids
    ensures forall pid | pid in ids :: result[pid].stem == PhoneStem(runId, pid)
  {
    hide ExtractPhoneId, ReadInt, BeforeUnderscore, PhoneStem, BeamformedStem;
    BeamformedNameRead(runId);
    forall pid ensures ExtractPhoneId(PhoneStem(runId, pid)) == Some(pid) {
      RecorderNameRead(runId, pid);
    }
    forall pid ensures pid in result <==> pid in ids {
      if pid in ids {
        var f :| f in directory && f.stem == PhoneStem(runId, pid);
      }
      if f :| f in directory && ExtractPhoneId(f.stem) == Some(pid) {
        var q :| q in ids && f.stem == PhoneStem(runId, q);
      }
    }
  }
}
