/** The trigger handler of src/services/cronService.js: the registry of
    scheduled jobs, the run flag every firing checks, and processFolder's
    choice of the next item of a watched folder. When a job fires is decided
    by node-schedule, which is not part of this model: a firing is a call. */
module Cron {
  import opened Common
  import opened Paths
  import opened FileSystem
  import opened UploadLedger
  import YouTube
  import opened VideoUpload

  /** A watched folder: its id, display name, absolute path and the cron
      expression its job runs on. */
  datatype FolderConfig = FolderConfig(id: nat, folderName: string, folderPath: Path, cronExpression: string)

  // ----- Pending entries -----------------------------------------------------

  /** Entries of a watched folder that are candidates: not the archive, not a
      hidden name, not Windows' thumbnail cache. */
  predicate IsPending(name: string) {
    name != "archive" && !StartsWith(name, ".") && name != "Thumbs.db"
  }

  /** The filter of processFolder, in listing order. */
  function PendingEntries(names: seq<string>): (r: seq<string>)
    ensures forall n :: n in r <==> n in names && IsPending(n)
  {
    if names == [] then []
    else (if IsPending(names[0]) then [names[0]] else []) + PendingEntries(names[1..])
  }

  /** Each candidate is kept as often as the listing holds it; nothing else
      is kept. */
  lemma {:induction false} PendingEntriesCount(names: seq<string>, n: string)
    ensures multiset(PendingEntries(names))[n] == if IsPending(n) then multiset(names)[n] else 0
  {
    if names != [] {
      assert names == [names[0]] + names[1..];
      PendingEntriesCount(names[1..], n);
    }
  }

  /** The filter keeps listing order: filtering a listing is filtering its
      parts one after the other. */
  lemma {:induction false} PendingEntriesKeepOrder(a: seq<string>, b: seq<string>)
    ensures PendingEntries(a + b) == PendingEntries(a) + PendingEntries(b)
  {
    if a == [] {
      assert a + b == b;
    } else {
      assert (a + b)[0] == a[0] && (a + b)[1..] == a[1..] + b;
      PendingEntriesKeepOrder(a[1..], b);
    }
  }

  // ----- The numeric prefix, as parseInt reads it ------------------------------

  /** A number, or NaN when parseInt finds no digits. */
  datatype SortKey = Number(value: int) | NotANumber

  /** name.split("-")[0]: everything before the first '-'. */
  function PrefixBeforeDash(name: string): (p: string)
    ensures StartsWith(name, p) && '-' !in p
    ensures |p| == |name| || name[|p|] == '-'
  {
    if name == [] || name[0] == '-' then []
    else [name[0]] + PrefixBeforeDash(name[1..])
  }

  /** The white space parseInt skips: ECMAScript's WhiteSpace and
      LineTerminator characters. */
  predicate IsSpace(c: char) {
    || c == ' ' || c == '\t' || c == '\n' || c == '\r' || c == '\U{000B}' || c == '\U{000C}'
    || c == '\U{00A0}' || c == '\U{1680}' || '\U{2000}' <= c <= '\U{200A}'
    || c == '\U{2028}' || c == '\U{2029}' || c == '\U{202F}' || c == '\U{205F}'
    || c == '\U{3000}' || c == '\U{FEFF}'
  }

  function TrimStart(s: string): (t: string)
    ensures |t| <= |s| && t == s[|s| - |t|..]
    ensures t == [] || !IsSpace(t[0])
  {
    if s != [] && IsSpace(s[0]) then TrimStart(s[1..]) else s
  }

  /** The longest prefix of s that satisfies `digit` character by character. */
  function LeadingRun(s: string, digit: char -> bool): (d: string)
    ensures StartsWith(s, d) && (forall i :: 0 <= i < |d| ==> digit(d[i]))
    ensures |d| == |s| || !digit(s[|d|])
  {
    if s != [] && digit(s[0]) then [s[0]] + LeadingRun(s[1..], digit) else []
  }

  predicate IsHexDigit(c: char) {
    IsDigit(c) || 'a' <= c <= 'f' || 'A' <= c <= 'F'
  }

  function HexDigitValue(c: char): (d: nat)
    requires IsHexDigit(c)
    ensures d < 16
  {
    if IsDigit(c) then DigitValue(c)
    else if 'a' <= c <= 'f' then c as int - 'a' as int + 10
    else c as int - 'A' as int + 10
  }

  function HexValue(s: string): nat
    requires forall i :: 0 <= i < |s| ==> IsHexDigit(s[i])
  {
    if s == [] then 0 else 16 * HexValue(s[..|s| - 1]) + HexDigitValue(s[|s| - 1])
  }

  /** parseInt(s) with no radix: skip white space, read an optional sign,
      then a "0x"/"0X" prefix selects base 16, otherwise base 10; NaN when no
      digit follows. */
  function ParseInt(s: string): (k: SortKey)
    ensures s != [] && !IsSpace(s[0]) && !IsDigit(s[0]) && s[0] != '+' && s[0] != '-' ==> k == NotANumber
  {
    var t := TrimStart(s);
    var negative := t != [] && t[0] == '-';
    var unsigned := if t != [] && (t[0] == '-' || t[0] == '+') then t[1..] else t;
    var magnitude: Option<int> :=
      if |unsigned| >= 2 && unsigned[0] == '0' && (unsigned[1] == 'x' || unsigned[1] == 'X') then
        var h := LeadingRun(unsigned[2..], IsHexDigit);
        if h == [] then None else Some(HexValue(h))
      else
        var d := LeadingRun(unsigned, IsDigit);
        if d == [] then None else Some(DecimalValue(d));
    match magnitude
    case None => NotANumber
    case Some(m) => Number(if negative then -m else m)
  }

  /** The sort key of an entry: parseInt(entry.split("-")[0]). */
  function Key(name: string): SortKey {
    ParseInt(PrefixBeforeDash(name))
  }

  /** A run of decimal digits reads as the number it denotes. */
  lemma ParseIntOfDigits(s: string)
    requires s != [] && AllDigits(s)
    ensures ParseInt(s) == Number(DecimalValue(s))
  {
    assert !IsSpace(s[0]) && TrimStart(s) == s;
    assert s[0] != '-' && s[0] != '+';
    assert |s| >= 2 ==> IsDigit(s[1]) && s[1] != 'x' && s[1] != 'X';
    var d := LeadingRun(s, IsDigit);
    assert |d| == |s|;
    assert d == s;
  }

  /** An item named "<digits>-<title>" sorts by the number its digits
      denote. */
  lemma KeyOfNumberedName(digits: string, title: string)
    requires digits != [] && AllDigits(digits)
    ensures Key(digits + "-" + title) == Number(DecimalValue(digits))
  {
    assert '-' !in digits by {
      forall i | 0 <= i < |digits| ensures digits[i] != '-' { assert IsDigit(digits[i]); }
    }
    PrefixOfDashed(digits, title);
    ParseIntOfDigits(digits);
  }

  lemma {:induction false} PrefixOfDashed(head: string, tail: string)
    requires '-' !in head
    ensures PrefixBeforeDash(head + "-" + tail) == head
  {
    if head != [] {
      assert (head + "-" + tail)[1..] == head[1..] + "-" + tail;
      PrefixOfDashed(head[1..], tail);
    }
  }

  /** The order the model fixes for the comparator numA - numB: numbers
      ascending, and every NaN after every number, NaNs in listing order. The
      comparator gives NaN whenever a key is NaN, and the sort takes that as
      "equal", so it is not a consistent order once a NaN key sits among
      numbers; where every comparison involves a NaN it ties everything and
      the sort keeps listing order. This order agrees with the comparator on
      numbers only. */
  predicate KeyLe(a: SortKey, b: SortKey) {
    match (a, b)
    case (Number(x), Number(y)) => x <= y
    case (Number(_), NotANumber) => true
    case (NotANumber, Number(_)) => false
    case (NotANumber, NotANumber) => true
  }

  lemma KeyLeTotal(a: SortKey, b: SortKey, c: SortKey)
    ensures KeyLe(a, b) || KeyLe(b, a)
    ensures KeyLe(a, b) && KeyLe(b, c) ==> KeyLe(a, c)
    ensures KeyLe(a, b) && KeyLe(b, a) ==> a == b
  {
  }

  /** Two numeric keys are put in the comparator's order. */
  lemma KeyLeAgreesWithComparator(x: int, y: int)
    ensures KeyLe(Number(x), Number(y)) <==> x - y <= 0
  {
  }

  /** The sort below is written for any key function; processFolder's is
      Key. Keeping the key a parameter leaves parseInt out of the sorting
      proofs. */
  ghost predicate SortedByKey(key: string -> SortKey, s: seq<string>) {
    forall i, j :: 0 <= i < j < |s| ==> KeyLe(key(s[i]), key(s[j]))
  }

  /** x placed before the first entry whose key is not below its own. */
  function InsertByKey(key: string -> SortKey, x: string, s: seq<string>): (r: seq<string>)
    requires SortedByKey(key, s)
    ensures SortedByKey(key, r) && multiset(r) == multiset(s) + multiset{x}
  {
    if s == [] then [x]
    else if KeyLe(key(x), key(s[0])) then
      InsertInFront(key, x, s);
      [x] + s
    else
      var rest := InsertByKey(key, x, s[1..]);
      InsertBehindHead(key, x, s, rest);
      [s[0]] + rest
  }

  lemma SortedCons(key: string -> SortKey, a: string, r: seq<string>)
    requires SortedByKey(key, r) && forall j :: 0 <= j < |r| ==> KeyLe(key(a), key(r[j]))
    ensures SortedByKey(key, [a] + r)
  {
    var t := [a] + r;
    forall i, j | 0 <= i < j < |t| ensures KeyLe(key(t[i]), key(t[j])) {
      assert t[j] == r[j - 1];
      if i > 0 {
        assert t[i] == r[i - 1];
      }
    }
  }

  lemma InsertInFront(key: string -> SortKey, x: string, s: seq<string>)
    requires SortedByKey(key, s) && s != [] && KeyLe(key(x), key(s[0]))
    ensures SortedByKey(key, [x] + s)
  {
    forall j | 0 <= j < |s| ensures KeyLe(key(x), key(s[j])) {
      KeyLeTotal(key(x), key(s[0]), key(s[j]));
    }
    SortedCons(key, x, s);
  }

  lemma InsertBehindHead(key: string -> SortKey, x: string, s: seq<string>, rest: seq<string>)
    requires SortedByKey(key, s) && s != [] && !KeyLe(key(x), key(s[0]))
    requires SortedByKey(key, rest) && multiset(rest) == multiset(s[1..]) + multiset{x}
    ensures SortedByKey(key, [s[0]] + rest) && multiset([s[0]] + rest) == multiset(s) + multiset{x}
  {
    assert s == [s[0]] + s[1..];
    forall j | 0 <= j < |rest| ensures KeyLe(key(s[0]), key(rest[j])) {
      assert rest[j] in multiset(rest);
      if rest[j] == x {
        KeyLeTotal(key(x), key(s[0]), key(s[0]));
      } else {
        assert rest[j] in multiset(s[1..]);
        var k :| 0 <= k < |s[1..]| && s[1..][k] == rest[j];
        assert s[k + 1] == rest[j];
      }
    }
    SortedCons(key, s[0], rest);
  }

  /** The first entry of a sorted sequence has the lowest key. */
  lemma HeadIsLeast(key: string -> SortKey, s: seq<string>)
    requires SortedByKey(key, s) && s != []
    ensures forall n :: n in s ==> KeyLe(key(s[0]), key(n))
  {
    forall n | n in s ensures KeyLe(key(s[0]), key(n)) {
      var k :| 0 <= k < |s| && s[k] == n;
      if k == 0 { KeyLeTotal(key(n), key(n), key(n)); }
    }
  }

  /** The sort of processFolder under the fixed order: a permutation of the
      pending entries, ascending by key. */
  function SortByKey(key: string -> SortKey, s: seq<string>): (r: seq<string>)
    ensures SortedByKey(key, r) && multiset(r) == multiset(s)
  {
    if s == [] then []
    else
      assert s == [s[0]] + s[1..];
      InsertByKey(key, s[0], SortByKey(key, s[1..]))
  }

  /** The entries of s whose key is k, in their order in s. */
  function WithKey(key: string -> SortKey, k: SortKey, s: seq<string>): seq<string> {
    if s == [] then []
    else (if key(s[0]) == k then [s[0]] else []) + WithKey(key, k, s[1..])
  }

  /** The pending entries of a listing whose key is k, in listing order. */
  function PendingWithKey(key: string -> SortKey, k: SortKey, names: seq<string>): seq<string> {
    if names == [] then []
    else (if IsPending(names[0]) && key(names[0]) == k then [names[0]] else []) + PendingWithKey(key, k, names[1..])
  }

  lemma {:induction false} WithKeyOfPending(key: string -> SortKey, k: SortKey, names: seq<string>)
    ensures WithKey(key, k, PendingEntries(names)) == PendingWithKey(key, k, names)
  {
    if names != [] {
      var rest := PendingEntries(names[1..]);
      WithKeyOfPending(key, k, names[1..]);
      if IsPending(names[0]) {
        assert PendingEntries(names) == [names[0]] + rest && ([names[0]] + rest)[1..] == rest;
      } else {
        assert PendingEntries(names) == rest;
      }
    }
  }

  /** The first pending entry with key k is the earliest one in the listing. */
  lemma {:induction false} FirstWithKey(key: string -> SortKey, k: SortKey, names: seq<string>)
    requires PendingWithKey(key, k, names) != []
    ensures exists i :: 0 <= i < |names| && names[i] == PendingWithKey(key, k, names)[0] &&
              forall j :: 0 <= j < i ==> !(IsPending(names[j]) && key(names[j]) == k)
  {
    if IsPending(names[0]) && key(names[0]) == k {
      assert PendingWithKey(key, k, names)[0] == names[0];
    } else {
      assert PendingWithKey(key, k, names) == PendingWithKey(key, k, names[1..]);
      FirstWithKey(key, k, names[1..]);
      var i :| 0 <= i < |names[1..]| && names[1..][i] == PendingWithKey(key, k, names[1..])[0] &&
               forall j :: 0 <= j < i ==> !(IsPending(names[1..][j]) && key(names[1..][j]) == k);
      assert names[i + 1] == names[1..][i];
      forall j | 0 < j < i + 1 ensures !(IsPending(names[j]) && key(names[j]) == k) {
        assert names[j] == names[1..][j - 1];
      }
    }
  }

  lemma SortedTail(key: string -> SortKey, s: seq<string>)
    requires SortedByKey(key, s) && s != []
    ensures SortedByKey(key, s[1..])
  {
    forall i, j | 0 <= i < j < |s[1..]| ensures KeyLe(key(s[1..][i]), key(s[1..][j])) {
      assert s[1..][i] == s[i + 1] && s[1..][j] == s[j + 1];
    }
  }

  /** x goes in front of every entry with the same key. */
  lemma {:induction false} InsertKeepsKeyOrder(key: string -> SortKey, x: string, t: seq<string>, k: SortKey)
    requires SortedByKey(key, t)
    ensures WithKey(key, k, InsertByKey(key, x, t)) == (if key(x) == k then [x] else []) + WithKey(key, k, t)
  {
    var hx := if key(x) == k then [x] else [];
    if t == [] {
      assert InsertByKey(key, x, t) == [x] && [x][1..] == [];
    } else if KeyLe(key(x), key(t[0])) {
      assert InsertByKey(key, x, t) == [x] + t && ([x] + t)[1..] == t;
    } else {
      SortedTail(key, t);
      var rest := InsertByKey(key, x, t[1..]);
      assert InsertByKey(key, x, t) == [t[0]] + rest && ([t[0]] + rest)[1..] == rest;
      InsertKeepsKeyOrder(key, x, t[1..], k);
      var h0 := if key(t[0]) == k then [t[0]] else [];
      var w := WithKey(key, k, t[1..]);
      assert WithKey(key, k, rest) == hx + w;
      assert WithKey(key, k, [t[0]] + rest) == h0 + WithKey(key, k, rest);
      assert WithKey(key, k, t) == h0 + w;
      assert h0 == [] || hx == [];
      CommuteHeads(h0, hx, w);
    }
  }

  lemma CommuteHeads(a: seq<string>, b: seq<string>, w: seq<string>)
    requires a == [] || b == []
    ensures a + (b + w) == b + (a + w)
  {
    if a == [] {
      assert a + (b + w) == b + w && a + w == w;
    } else {
      assert b + w == w && b + (a + w) == a + w;
    }
  }

  /** The sort is stable, as Array.prototype.sort is: entries with the same
      key keep their relative order. */
  lemma {:induction false} SortByKeyStable(key: string -> SortKey, s: seq<string>, k: SortKey)
    ensures WithKey(key, k, SortByKey(key, s)) == WithKey(key, k, s)
  {
    if s != [] {
      SortByKeyStable(key, s[1..], k);
      InsertKeepsKeyOrder(key, s[0], SortByKey(key, s[1..]), k);
      assert WithKey(key, k, s) == (if key(s[0]) == k then [s[0]] else []) + WithKey(key, k, s[1..]);
    }
  }

  // ----- Selection -----------------------------------------------------------

  /** How one processFolder run ends before or at the upload call. */
  datatype Selection =
    | RootUnreadable(error: FsError)
    | NoPending
    | ItemUnreadable(item: string, itemPath: Path, error: FsError)
    | NoVideo(item: string, itemPath: Path)
    | AlreadyUploaded(item: string, itemPath: Path, videoPath: Path, row: UploadRow)
    | Ready(item: string, itemPath: Path, videoPath: Path)
  {
    predicate HasItem() {
      ItemUnreadable? || NoVideo? || AlreadyUploaded? || Ready?
    }
    predicate HasVideo() {
      AlreadyUploaded? || Ready?
    }
  }

  /** The entry processFolder takes: the first of the sorted pending
      entries, so one with the lowest key. */
  function NextItem(names: seq<string>): (r: Option<string>)
    ensures r.None? <==> forall n :: n in names ==> !IsPending(n)
    ensures r.Some? ==> r.value in names && IsPending(r.value)
    ensures r.Some? ==> forall n :: n in names && IsPending(n) ==> KeyLe(Key(r.value), Key(n))
    ensures r.Some? ==>
              exists i :: 0 <= i < |names| && names[i] == r.value &&
                forall j :: 0 <= j < i && IsPending(names[j]) ==> !KeyLe(Key(names[j]), Key(r.value))
  {
    var pending := SortByKey(Key, PendingEntries(names));
    if pending == [] then
      None
    else
      SortedHeadIsPending(Key, names, pending);
      SortedHeadIsLeast(Key, names, pending);
      SortedHeadIsEarliest(Key, names, pending);
      Some(pending[0])
  }

  /** The head of the sorted pending entries is a pending entry of the
      listing. */
  lemma SortedHeadIsPending(key: string -> SortKey, names: seq<string>, pending: seq<string>)
    requires pending == SortByKey(key, PendingEntries(names)) && pending != []
    ensures pending[0] in names && IsPending(pending[0])
  {
    assert pending[0] in multiset(PendingEntries(names));
  }

  /** The head of the sorted pending entries has the lowest key of every
      pending entry of the listing. */
  lemma SortedHeadIsLeast(key: string -> SortKey, names: seq<string>, pending: seq<string>)
    requires pending == SortByKey(key, PendingEntries(names)) && pending != []
    ensures forall n :: n in names && IsPending(n) ==> KeyLe(key(pending[0]), key(n))
  {
    var entries := PendingEntries(names);
    assert multiset(pending) == multiset(entries);
    HeadIsLeast(key, pending);
    forall n | n in names && IsPending(n) ensures n in pending {
      assert n in entries;
      assert n in multiset(pending);
    }
  }

  /** No pending entry listed before the sorted head has a key as low. */
  lemma SortedHeadIsEarliest(key: string -> SortKey, names: seq<string>, pending: seq<string>)
    requires pending == SortByKey(key, PendingEntries(names)) && pending != []
    ensures exists i :: 0 <= i < |names| && names[i] == pending[0] &&
              forall j :: 0 <= j < i && IsPending(names[j]) ==> !KeyLe(key(names[j]), key(pending[0]))
  {
    var h := pending[0];
    var i := HeadFirstWithKey(key, names, pending);
    SortedHeadIsLeast(key, names, pending);
    EarlierHasHigherKey(key, names, h, i);
  }

  /** The sorted head is the first pending entry of the listing whose key
      equals its own, since the sort keeps entries of equal key in order. */
  lemma HeadFirstWithKey(key: string -> SortKey, names: seq<string>, pending: seq<string>) returns (i: nat)
    requires pending == SortByKey(key, PendingEntries(names)) && pending != []
    ensures i < |names| && names[i] == pending[0]
    ensures forall j :: 0 <= j < i ==> !(IsPending(names[j]) && key(names[j]) == key(pending[0]))
  {
    var k := key(pending[0]);
    SortByKeyStable(key, PendingEntries(names), k);
    assert WithKey(key, k, pending) == [pending[0]] + WithKey(key, k, pending[1..]);
    WithKeyOfPending(key, k, names);
    FirstWithKey(key, k, names);
    i :| 0 <= i < |names| && names[i] == pending[0] &&
         forall j :: 0 <= j < i ==> !(IsPending(names[j]) && key(names[j]) == k);
  }

  /** When h has the lowest key among the pending entries and no pending
      entry before position i shares it, every one of them has a higher key. */
  lemma EarlierHasHigherKey(key: string -> SortKey, names: seq<string>, h: string, i: nat)
    requires i <= |names|
    requires forall n :: n in names && IsPending(n) ==> KeyLe(key(h), key(n))
    requires forall j :: 0 <= j < i ==> !(IsPending(names[j]) && key(names[j]) == key(h))
    ensures forall j :: 0 <= j < i && IsPending(names[j]) ==> !KeyLe(key(names[j]), key(h))
  {
    forall j | 0 <= j < i && IsPending(names[j]) ensures !KeyLe(key(names[j]), key(h)) {
      KeyLeTotal(key(names[j]), key(h), key(h));
    }
  }

  /** processFolder's checks on the chosen item: list it, take its first
      ".mp4", and look the video path up in the ledger. */
  function CheckItem(fs: Fs, ledger: Ledger, item: string, itemPath: Path): (s: Selection)
    ensures s.HasItem() && s.item == item && s.itemPath == itemPath
    ensures s.ItemUnreadable? <==> itemPath !in fs.dirs
    ensures s.NoVideo? <==> itemPath in fs.dirs && forall j :: 0 <= j < |fs.dirs[itemPath]| ==> !IsVideo(fs.dirs[itemPath][j])
    ensures s.HasVideo() ==> itemPath in fs.dirs
    ensures s.HasVideo() ==>
              exists i :: FirstWhere(fs.dirs[itemPath], IsVideo, i) && s.videoPath == Join(itemPath, fs.dirs[itemPath][i])
    ensures s.AlreadyUploaded? ==> FindByVideoPath(ledger, s.videoPath) == Some(s.row)
    ensures s.Ready? ==> FindByVideoPath(ledger, s.videoPath) == None
  {
    match ReadDir(fs, itemPath)
    case Err(e) => ItemUnreadable(item, itemPath, e)
    case Ok(files) =>
      match FindFirst(files, IsVideo)
      case None => NoVideo(item, itemPath)
      case Some(i) =>
        assert FirstWhere(files, IsVideo, i);
        var videoPath := Join(itemPath, files[i]);
        match FindByVideoPath(ledger, videoPath)
        case Some(row) => AlreadyUploaded(item, itemPath, videoPath, row)
        case None => Ready(item, itemPath, videoPath)
  }

  /** processFolder up to the upload: list the folder, take the pending
      entry with the lowest key, and check it. */
  function SelectNext(fs: Fs, ledger: Ledger, root: Path): (s: Selection)
    ensures s.RootUnreadable? <==> root !in fs.dirs
    ensures s == NoPending <==> root in fs.dirs && forall n :: n in fs.dirs[root] ==> !IsPending(n)
    ensures s.HasItem() ==> root in fs.dirs && s.item in fs.dirs[root] && IsPending(s.item)
    ensures s.HasItem() ==> forall n :: n in fs.dirs[root] && IsPending(n) ==> KeyLe(Key(s.item), Key(n))
    ensures s.HasItem() ==>
              exists i :: 0 <= i < |fs.dirs[root]| && fs.dirs[root][i] == s.item &&
                forall j :: 0 <= j < i && IsPending(fs.dirs[root][j]) ==> !KeyLe(Key(fs.dirs[root][j]), Key(s.item))
    ensures s.HasItem() ==> s == CheckItem(fs, ledger, s.item, Join(root, s.item))
  {
    match ReadDir(fs, root)
    case Err(e) => RootUnreadable(e)
    case Ok(names) =>
      match NextItem(names)
      case None => NoPending
      case Some(item) => CheckItem(fs, ledger, item, Join(root, item))
  }

  /** The video the trigger checks against the ledger is the one the upload
      pipeline then uploads. */
  lemma SelectedVideoIsUploaded(fs: Fs, ledger: Ledger, root: Path)
    requires SelectNext(fs, ledger, root).Ready?
    requires Prepare(fs, SelectNext(fs, ledger, root).itemPath).Ok?
    ensures Prepare(fs, SelectNext(fs, ledger, root).itemPath).value.videoPath == SelectNext(fs, ledger, root).videoPath
  {
    var s := SelectNext(fs, ledger, root);
    var files := fs.dirs[s.itemPath];
    PrepareSelects(fs, s.itemPath);
    var i :| FirstWhere(files, IsVideo, i) && s.videoPath == Join(s.itemPath, files[i]);
    var i' :| FirstWhere(files, IsVideo, i') && Prepare(fs, s.itemPath).value.videoPath == Join(s.itemPath, files[i']);
    assert i == i';
  }

  /** Selection reads the ledger only through the completed row of the
      chosen video: a ledger with the same answer there gives the same
      selection. */
  lemma SelectNextLedgerIndependent(fs: Fs, l1: Ledger, l2: Ledger, root: Path)
    requires SelectNext(fs, l1, root).HasVideo()
    requires FindByVideoPath(l2, SelectNext(fs, l1, root).videoPath).Some?
    ensures SelectNext(fs, l2, root).AlreadyUploaded?
    ensures SelectNext(fs, l2, root).videoPath == SelectNext(fs, l1, root).videoPath
  {
  }

  /** With the success write keyed by the new row's id, an item whose archive
      step failed before moving anything is skipped at the next firing rather
      than uploaded again. */
  lemma DedupAfterSuccess(fs: Fs, ledger: Ledger, root: Path, folderConfigId: nat, youtubeVideoId: string)
    requires WellNumbered(ledger)
    requires SelectNext(fs, ledger, root).Ready?
    requires Prepare(fs, SelectNext(fs, ledger, root).itemPath).Ok?
    ensures var p := Prepare(fs, SelectNext(fs, ledger, root).itemPath).value;
            SelectNext(fs, RecordSuccess(ledger, folderConfigId, p.videoName, p.videoPath, p.metadata, youtubeVideoId), root).AlreadyUploaded?
  {
    var p := Prepare(fs, SelectNext(fs, ledger, root).itemPath).value;
    SelectedVideoIsUploaded(fs, ledger, root);
    RecordSuccessCompletes(ledger, folderConfigId, p.videoName, p.videoPath, p.metadata, youtubeVideoId);
    SelectNextLedgerIndependent(fs, ledger, RecordSuccess(ledger, folderConfigId, p.videoName, p.videoPath, p.metadata, youtubeVideoId), root);
  }

  /** With the success write as written, the same item is selected and
      uploaded again at the next firing. */
  lemma ReuploadAsWritten(fs: Fs, ledger: Ledger, root: Path, folderConfigId: nat, youtubeVideoId: string)
    requires SelectNext(fs, ledger, root).Ready?
    requires Prepare(fs, SelectNext(fs, ledger, root).itemPath).Ok?
    ensures var p := Prepare(fs, SelectNext(fs, ledger, root).itemPath).value;
            SelectNext(fs, RecordSuccessAsWritten(ledger, folderConfigId, p.videoName, p.videoPath, p.metadata, youtubeVideoId), root)
              == SelectNext(fs, ledger, root)
  {
    var s := SelectNext(fs, ledger, root);
    var p := Prepare(fs, s.itemPath).value;
    SelectedVideoIsUploaded(fs, ledger, root);
    AsWrittenNeverCompletes(ledger, folderConfigId, p.videoName, p.videoPath, p.metadata, youtubeVideoId);
  }

  /** What one run of processFolder leaves behind once it has made the
      selection s: when the item is ready, the pipeline's outcome for it;
      otherwise nothing changes. */
  ghost predicate RunOutcome(folderConfigId: nat, fs: Fs, ledger: Ledger, now: nat, s: Selection,
                             r: Option<Result<YouTube.UploadResult, PipelineError>>, fs': Fs, ledger': Ledger, done: nat)
  {
    && (!s.Ready? ==> r == None && fs' == fs && ledger' == ledger && done == now)
    && (s.Ready? ==>
          && r.Some?
          && PipelineOutcome(folderConfigId, s.itemPath, fs, ledger, now, r.value, fs', ledger', done)
          && (Prepare(fs, s.itemPath).Ok? ==> Prepare(fs, s.itemPath).value.videoPath == s.videoPath))
  }

  /** A run only appends to the ledger: every upload row and failure row
      that was there is still there, unchanged and in place, at most one row
      of each kind is added, and an added upload row is in_progress. */
  lemma RunAppendsToLedger(folderConfigId: nat, fs: Fs, ledger: Ledger, now: nat, s: Selection,
                           r: Option<Result<YouTube.UploadResult, PipelineError>>, fs': Fs, ledger': Ledger, done: nat)
    requires RunOutcome(folderConfigId, fs, ledger, now, s, r, fs', ledger', done)
    ensures |ledger.uploads| <= |ledger'.uploads| <= |ledger.uploads| + 1
    ensures |ledger.failures| <= |ledger'.failures| <= |ledger.failures| + 1
    ensures ledger'.uploads[..|ledger.uploads|] == ledger.uploads
    ensures ledger'.failures[..|ledger.failures|] == ledger.failures
    ensures forall i :: |ledger.uploads| <= i < |ledger'.uploads| ==> ledger'.uploads[i].status == InProgress
  {
    if s.Ready? {
      PipelineAppendsToLedger(folderConfigId, s.itemPath, fs, ledger, now, r.value, fs', ledger', done);
    } else {
      assert ledger' == ledger;
    }
  }

  // ----- Job registry and trigger --------------------------------------------

  /** this.jobs after setting each config's job in turn: the last config with
      an id wins. */
  function Registry(configs: seq<FolderConfig>): map<nat, FolderConfig> {
    if configs == [] then map[]
    else Registry(configs[..|configs| - 1])[configs[|configs| - 1].id := configs[|configs| - 1]]
  }

  /** The key order of this.jobs after the same sets: a Map keeps the
      position of a key's first insertion. */
  function RegistryOrder(configs: seq<FolderConfig>): seq<nat> {
    if configs == [] then []
    else
      var prev := RegistryOrder(configs[..|configs| - 1]);
      var id := configs[|configs| - 1].id;
      if id in prev then prev else prev + [id]
  }

  /** The registry holds exactly the ids of the configs. */
  lemma {:induction false} RegistryKeys(configs: seq<FolderConfig>)
    ensures forall id :: id in Registry(configs) <==> exists i :: 0 <= i < |configs| && configs[i].id == id
  {
    if configs != [] {
      var init := configs[..|configs| - 1];
      RegistryKeys(init);
      assert Registry(configs) == Registry(init)[configs[|configs| - 1].id := configs[|configs| - 1]];
      forall id | id in Registry(configs)
        ensures exists i :: 0 <= i < |configs| && configs[i].id == id
      {
        if id != configs[|configs| - 1].id {
          var i :| 0 <= i < |init| && init[i].id == id;
          assert configs[i].id == id;
        }
      }
      forall id | exists i :: 0 <= i < |configs| && configs[i].id == id
        ensures id in Registry(configs)
      {
        var i :| 0 <= i < |configs| && configs[i].id == id;
        if i < |init| { assert init[i].id == id; }
      }
    }
  }

  /** The key order lists each key of the registry exactly once. */
  lemma {:induction false} RegistryOrderMatches(configs: seq<FolderConfig>)
    ensures Distinct(RegistryOrder(configs))
    ensures forall id :: id in RegistryOrder(configs) <==> id in Registry(configs)
  {
    if configs != [] {
      RegistryOrderMatches(configs[..|configs| - 1]);
    }
  }

  /** Each id maps to the last config carrying it. */
  lemma {:induction false} RegistryHoldsLast(configs: seq<FolderConfig>, i: nat)
    requires i < |configs| && forall j :: i < j < |configs| ==> configs[j].id != configs[i].id
    ensures configs[i].id in Registry(configs) && Registry(configs)[configs[i].id] == configs[i]
  {
    var init := configs[..|configs| - 1];
    if i < |init| {
      assert forall j :: i < j < |init| ==> init[j].id != init[i].id;
      RegistryHoldsLast(init, i);
    }
  }

  class CronService {
    /** The scheduled jobs by config id; a job is identified with the config
        it runs. */
    var jobs: map<nat, FolderConfig>
    /** The keys of `jobs` in the order the Map iterates them. */
    var order: seq<nat>
    /** One flag for every folder: a firing of any job is skipped while any
        job's run is in progress. */
    var isProcessing: bool
    const uploader: VideoUploadService

    ghost predicate Valid()
      reads this
    {
      Distinct(order) && forall id :: id in order <==> id in jobs
    }

    constructor (uploader: VideoUploadService)
      ensures Valid() && jobs == map[] && order == [] && !isProcessing && this.uploader == uploader
    {
      jobs := map[];
      order := [];
      isProcessing := false;
      this.uploader := uploader;
    }

    /** scheduleJob(folderConfig): register the job under the config's id. A
        job already registered under that id is replaced in the registry. */
    method ScheduleJob(config: FolderConfig)
      requires Valid()
      modifies this
      ensures Valid()
      ensures jobs == old(jobs)[config.id := config]
      ensures order == if config.id in old(jobs) then old(order) else old(order) + [config.id]
      ensures isProcessing == old(isProcessing)
    {
      if config.id !in jobs {
        order := order + [config.id];
      }
      jobs := jobs[config.id := config];
    }

    /** cancelAllJobs: every job cancelled and forgotten, and the run flag
        cleared. */
    method CancelAllJobs()
      modifies this
      ensures Valid() && jobs == map[] && order == [] && !isProcessing
    {
      jobs := map[];
      order := [];
      isProcessing := false;
    }

    /** getActiveJobs: the registered ids, each once, in registration order. */
    method GetActiveJobs() returns (ids: seq<nat>)
      requires Valid()
      ensures ids == order
      ensures Distinct(ids) && forall id :: id in ids <==> id in jobs
    {
      ids := order;
    }

    /** initializeJobs: cancel everything, then schedule a job for each active
        config in turn (the configs are those the database returns). */
    method InitializeJobs(configs: seq<FolderConfig>)
      modifies this
      ensures Valid() && !isProcessing
      ensures jobs == Registry(configs) && order == RegistryOrder(configs)
      ensures forall id :: id in jobs <==> exists i :: 0 <= i < |configs| && configs[i].id == id
    {
      CancelAllJobs();
      var i := 0;
      while i < |configs|
        invariant 0 <= i <= |configs| && Valid() && !isProcessing
        invariant jobs == Registry(configs[..i]) && order == RegistryOrder(configs[..i])
      {
        assert configs[..i + 1][..i] == configs[..i];
        ScheduleJob(configs[i]);
        i := i + 1;
      }
      assert configs[..i] == configs;
      RegistryKeys(configs);
      RegistryOrderMatches(configs);
    }

    /** The start of a firing: skipped while a run is in progress, otherwise
        the flag is raised. */
    method BeginRun() returns (started: bool)
      modifies this
      ensures started == !old(isProcessing) && isProcessing
      ensures jobs == old(jobs) && order == old(order)
    {
      if isProcessing {
        return false;
      }
      isProcessing := true;
      started := true;
    }

    /** The finally block of a firing. */
    method EndRun()
      modifies this
      ensures !isProcessing && jobs == old(jobs) && order == old(order)
    {
      isProcessing := false;
    }

    /** processFolder(folderConfig): select the next item and, when it is
        ready, hand it to the upload pipeline. Every error is caught here, so
        the pipeline's outcome is only reported back. */
    method ProcessFolder(config: FolderConfig, fs: Fs, ledger: Ledger, now: nat,
                         api: (YouTube.InsertRequest, nat) -> YouTube.InsertResponse)
      returns (s: Selection, r: Option<Result<YouTube.UploadResult, PipelineError>>, fs': Fs, ledger': Ledger, done: nat)
      requires uploader.youtube.limiter.Valid()
      modifies uploader.youtube.limiter
      ensures uploader.youtube.limiter.Valid() && now <= done
      ensures old(uploader.youtube.limiter.Steady()) && old(uploader.youtube.limiter.clock) <= now ==>
                uploader.youtube.limiter.Steady() && uploader.youtube.limiter.clock <= done
      ensures s == SelectNext(fs, ledger, config.folderPath)
      ensures RunOutcome(config.id, fs, ledger, now, s, r, fs', ledger', done)
      ensures !s.Ready? ==> uploader.youtube.limiter.grants == old(uploader.youtube.limiter.grants)
    {
      s := SelectNext(fs, ledger, config.folderPath);
      if !s.Ready? {
        r, fs', ledger', done := None, fs, ledger, now;
        return;
      }
      var result, attempts;
      result, fs', ledger', attempts, done := uploader.ProcessVideoUpload(config.id, s.itemPath, fs, ledger, now, api);
      r := Some(result);
      if Prepare(fs, s.itemPath).Ok? {
        SelectedVideoIsUploaded(fs, ledger, config.folderPath);
      }
    }

    /** The job body scheduleJob registers: one firing for `config`. A firing
        that starts is one processFolder run, after which the flag is clear
        again. */
    method Fire(config: FolderConfig, fs: Fs, ledger: Ledger, now: nat,
                api: (YouTube.InsertRequest, nat) -> YouTube.InsertResponse)
      returns (ran: bool, s: Option<Selection>, r: Option<Result<YouTube.UploadResult, PipelineError>>, fs': Fs, ledger': Ledger, done: nat)
      requires uploader.youtube.limiter.Valid()
      modifies this, uploader.youtube.limiter
      ensures uploader.youtube.limiter.Valid() && now <= done
      ensures old(uploader.youtube.limiter.Steady()) && old(uploader.youtube.limiter.clock) <= now ==>
                uploader.youtube.limiter.Steady() && uploader.youtube.limiter.clock <= done
      ensures ran <==> !old(isProcessing)
      ensures !ran ==> s == None && r == None && fs' == fs && ledger' == ledger && done == now && isProcessing
      ensures !ran ==> uploader.youtube.limiter.grants == old(uploader.youtube.limiter.grants)
      ensures ran ==> s.Some? && !isProcessing
      ensures ran ==> s.value == SelectNext(fs, ledger, config.folderPath)
      ensures ran ==> RunOutcome(config.id, fs, ledger, now, s.value, r, fs', ledger', done)
      ensures ran && !s.value.Ready? ==> uploader.youtube.limiter.grants == old(uploader.youtube.limiter.grants)
      ensures jobs == old(jobs) && order == old(order)
    {
      ran := BeginRun();
      if !ran {
        s, r, fs', ledger', done := None, None, fs, ledger, now;
        return;
      }
      var selection;
      selection, r, fs', ledger', done := ProcessFolder(config, fs, ledger, now, api);
      s := Some(selection);
      EndRun();
    }
  }

  /** The flag is shared and not keyed by folder: while one job's run is in
      progress, a firing of any job, another folder's included, is skipped,
      and the flag is clear once the run ends. */
  method OverlappingFirings(cron: CronService)
    returns (firstStarted: bool, secondStarted: bool)
    requires !cron.isProcessing
    modifies cron
    ensures firstStarted && !secondStarted && !cron.isProcessing
  {
    firstStarted := cron.BeginRun();
    secondStarted := cron.BeginRun();
    cron.EndRun();
  }
}
