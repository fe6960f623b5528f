/** The names under which RFCs are stored: "rfc", the number in decimal, ".txt". */
module FileNames {
  import opened Bytes

  function Digit(d: int): char
    requires 0 <= d < 10
  {
    '0' + d as char
  }

  predicate IsDigit(c: char) {
    '0' <= c <= '9'
  }

  function DigitValue(c: char): int
    requires IsDigit(c)
  {
    c as int - '0' as int
  }

  /** `stream << number` for a non-negative number. */
  function Decimal(n: nat): string {
    if n < 10 then [Digit(n)] else Decimal(n / 10) + [Digit(n % 10)]
  }

  predicate AllDigits(s: string) {
    forall c :: c in s ==> IsDigit(c)
  }

  /** The value that `std::stoi` computes from a string of digits. */
  function Value(s: string): nat
    requires AllDigits(s)
  {
    if s == [] then 0 else 10 * Value(s[..|s| - 1]) + DigitValue(s[|s| - 1])
  }

  function FileName(number: int32): string {
    "rfc" + (if number < 0 then "-" + Decimal(0 - number as int) else Decimal(number)) + ".txt"
  }

  datatype ParsedName = Number(number: int32) | NoMatch | OutOfRange

  /** `regex_match` against `^rfc(\d+).txt$`, whose unescaped dot takes any character but a line end. */
  predicate Matches(name: string) {
    && |name| >= 8 && name[..3] == "rfc" && name[|name| - 3..] == "txt"
    && AllDigits(name[3..|name| - 4])
    && name[|name| - 4] != '\n' && name[|name| - 4] != '\r'
  }

  /** `parse_filename`, with its two exceptions. */
  function ParseFilename(name: string): ParsedName {
    if !Matches(name) then NoMatch
    else if Value(name[3..|name| - 4]) < TWO_TO_THE_31 then Number(Value(name[3..|name| - 4]))
    else OutOfRange
  }

  lemma {:induction false} ValueOfDecimal(n: nat)
    ensures AllDigits(Decimal(n)) && Decimal(n) != [] && Value(Decimal(n)) == n
    ensures Decimal(n)[0] == '0' ==> Decimal(n) == "0"
  {
    if n >= 10 {
      ValueOfDecimal(n / 10);
      var s := Decimal(n);
      assert s[..|s| - 1] == Decimal(n / 10);
    } else {
      assert Value([]) == 0;
    }
  }

  /** A number written without superfluous zeros. */
  predicate Plain(s: string) {
    s != [] && AllDigits(s) && (s[0] == '0' ==> s == "0")
  }

  lemma {:induction false} DecimalOfValue(s: string)
    requires Plain(s)
    ensures Decimal(Value(s)) == s
    ensures s != "0" ==> Value(s) > 0
  {
    var n := |s|;
    assert IsDigit(s[n - 1]);
    assert Digit(DigitValue(s[n - 1])) == s[n - 1];
    if n == 1 {
      assert s[..0] == [] && s == [s[0]];
      assert Value(s) == DigitValue(s[0]);
    } else {
      var front := s[..n - 1];
      assert s == front + [s[n - 1]];
      DecimalOfValue(front);
      assert front != "0" by { assert front[0] == s[0]; }
      assert Value(s) == 10 * Value(front) + DigitValue(s[n - 1]);
    }
  }

  /** Every number comes back from the name it is stored under. */
  lemma ParsePrintedName(n: int32)
    requires n >= 0
    ensures ParseFilename(FileName(n)) == Number(n)
  {
    ValueOfDecimal(n);
    var name := FileName(n);
    assert name[..3] == "rfc" && name[|name| - 3..] == "txt" && name[|name| - 4] == '.';
    assert name[3..|name| - 4] == Decimal(n);
  }

  /** A name as `add_rfc` would write it. */
  predicate Canonical(name: string) {
    Matches(name) && name[|name| - 4] == '.' && Plain(name[3..|name| - 4])
  }

  /** Printing the number of a name that was read gives the name back exactly when it was canonical. */
  lemma PrintParsedNameIff(name: string)
    requires ParseFilename(name).Number?
    ensures FileName(ParseFilename(name).number) == name <==> Canonical(name)
  {
    var digits := name[3..|name| - 4];
    var n := ParseFilename(name).number;
    ValueOfDecimal(n);
    if FileName(n) == name {
      assert digits == Decimal(n) && name[|name| - 4] == '.';
    }
    if Canonical(name) {
      DecimalOfValue(digits);
      assert name == name[..3] + digits + [name[|name| - 4]] + name[|name| - 3..];
      assert ".txt" == ['.'] + "txt";
    }
  }

  function PowerOfTen(k: nat): nat {
    if k == 0 then 1 else 10 * PowerOfTen(k - 1)
  }

  /** The number that digits stand for, from the first on. */
  function Positional(s: string): int
    requires AllDigits(s)
  {
    if s == [] then 0 else (s[0] as int - '0' as int) * PowerOfTen(|s| - 1) + Positional(s[1..])
  }

  lemma {:induction false} PositionalAppend(s: string, c: char)
    requires AllDigits(s) && IsDigit(c)
    ensures AllDigits(s + [c]) && Positional(s + [c]) == 10 * Positional(s) + (c as int - '0' as int)
  {
    assert forall x :: x in s + [c] ==> x in s || x == c;
    if s == [] {
      assert [c][1..] == [] && s + [c] == [c] && PowerOfTen(0) == 1;
    } else {
      assert (s + [c])[1..] == s[1..] + [c];
      PositionalAppend(s[1..], c);
      TimesTen(s[0] as int - '0' as int, PowerOfTen(|s| - 1));
    }
  }

  lemma TimesTen(d: int, p: int)
    ensures d * (10 * p) == 10 * (d * p)
  {
  }

  lemma {:induction false} ValueIsPositional(s: string)
    requires AllDigits(s)
    ensures Value(s) == Positional(s)
  {
    if s != [] {
      var front := s[..|s| - 1];
      assert s == front + [s[|s| - 1]];
      ValueIsPositional(front);
      PositionalAppend(front, s[|s| - 1]);
    }
  }

  /** The file of a number: "rfc", its digits in base ten without superfluous zeros, ".txt". */
  lemma NameIs(n: int32)
    requires n >= 0
    ensures var name := FileName(n);
      && |name| >= 8 && name[..3] == "rfc" && name[|name| - 4..] == ".txt"
      && AllDigits(name[3..|name| - 4]) && Positional(name[3..|name| - 4]) == n
      && (name[3] == '0' ==> n == 0 && name == "rfc0.txt")
  {
    ValueOfDecimal(n);
    ValueIsPositional(Decimal(n));
    var name := FileName(n);
    assert name[3..|name| - 4] == Decimal(n) && name[3] == Decimal(n)[0];
  }

  /** A name is a number below 2^31 between "rfc" and "txt", with any one character but a line end between. */
  lemma ReadsNameIff(name: string, n: int32)
    ensures ParseFilename(name) == Number(n) <==>
            && |name| >= 8 && name[..3] == "rfc" && name[|name| - 3..] == "txt" && name[|name| - 4] != '\n' && name[|name| - 4] != '\r'
            && (forall i :: 3 <= i < |name| - 4 ==> '0' <= name[i] <= '9')
            && AllDigits(name[3..|name| - 4]) && Positional(name[3..|name| - 4]) == n
  {
    if |name| >= 8 {
      var digits := name[3..|name| - 4];
      assert AllDigits(digits) <==> forall i :: 3 <= i < |name| - 4 ==> '0' <= name[i] <= '9' by {
        assert forall i :: 0 <= i < |digits| ==> digits[i] == name[i + 3];
        if AllDigits(digits) {
          forall i | 3 <= i < |name| - 4 ensures '0' <= name[i] <= '9' {
            assert name[i] == digits[i - 3] && digits[i - 3] in digits && IsDigit(digits[i - 3]);
          }
        }
      }
      if AllDigits(digits) { ValueIsPositional(digits); }
    }
  }

  /** The departures from canonical names: "rfc07-txt" reads as 7, which is stored as "rfc7.txt". */
  lemma OtherNamesAreRead()
    ensures ParseFilename("rfc07-txt") == Number(7) && FileName(7) != "rfc07-txt"
  {
    assert "rfc07-txt"[3..5] == "07" && "07"[..1] == "0" && "0"[..0] == "";
    assert "rfc07-txt"[..3] == "rfc" && "rfc07-txt"[6..] == "txt";
    assert Value("0") == 0 && Value("07") == 7;
    assert Decimal(7) == "7";
  }
}

module RfcManager {
  import opened Bytes
  import opened Sorting
  import opened FileNames

  /** `fgetc` into a signed `char` ends the file at a byte 0xFF. */
  const EOF_BYTE: byte := 0xFF

  function WrittenAs(content: seq<byte>): seq<byte> {
    CString(content)
  }

  function ReadAs(file: seq<byte>): seq<byte> {
    TakeUntil(file, EOF_BYTE)
  }

  /** What `get_content` makes of a directory. */
  function Read(dir: map<int32, seq<byte>>, n: int32): Option<seq<byte>> {
    if n in dir then Some(ReadAs(dir[n])) else None
  }

  /** A content survives being stored and read exactly when it has neither a NUL nor a 0xFF byte. */
  lemma ContentSurvivesIff(content: seq<byte>)
    ensures ReadAs(WrittenAs(content)) == content <==> 0 !in content && 0xFF !in content
  {
  }

  // ---- The order of `int` ----

  const ASCENDING: (int32, int32) -> bool := (a, b) => a < b

  lemma AscendingIsOrder()
    ensures StrictTotalOrder(ASCENDING)
  {
  }

  // ---- A directory as a map from number to stored bytes ----

  ghost predicate AllCanonical(files: map<string, seq<byte>>) {
    forall name :: name in files ==> Canonical(name) && ParseFilename(name).Number?
  }

  function NumbersOf(names: set<string>): set<int32> {
    set name | name in names && ParseFilename(name).Number? :: ParseFilename(name).number
  }

  lemma NamesAreNumbers(files: map<string, seq<byte>>)
    requires AllCanonical(files)
    ensures forall name :: name in files ==> FileName(ParseFilename(name).number) == name && ParseFilename(name).number >= 0
    ensures forall n: int32 :: n >= 0 && FileName(n) in files ==> n in NumbersOf(files.Keys)
    ensures forall n :: n in NumbersOf(files.Keys) ==> 0 <= n < TWO_TO_THE_31 && FileName(n) in files
  {
    forall name | name in files
      ensures FileName(ParseFilename(name).number) == name && ParseFilename(name).number >= 0
    {
      PrintParsedNameIff(name);
    }
    forall n: int32 | n >= 0 && FileName(n) in files ensures n in NumbersOf(files.Keys) {
      ParsePrintedName(n);
    }
  }

  ghost function StoreOf(files: map<string, seq<byte>>): map<int32, seq<byte>>
    requires AllCanonical(files)
  {
    NamesAreNumbers(files);
    map n | n in NumbersOf(files.Keys) :: files[FileName(n)]
  }

  lemma StoreAt(files: map<string, seq<byte>>, n: int32)
    requires AllCanonical(files)
    ensures n in StoreOf(files) <==> FileName(n) in files
    ensures n in StoreOf(files) ==> StoreOf(files)[n] == files[FileName(n)]
  {
    NamesAreNumbers(files);
    if n < 0 { NegativeNamesAreNotCanonical(n); }
  }

  lemma StoreAfterWrite(files: map<string, seq<byte>>, number: int32, bytes: seq<byte>)
    requires AllCanonical(files) && number >= 0
    ensures AllCanonical(files[FileName(number) := bytes])
    ensures StoreOf(files[FileName(number) := bytes]) == StoreOf(files)[number := bytes]
  {
    ParsePrintedName(number);
    PrintParsedNameIff(FileName(number));
    forall n: int32
      ensures var store' := StoreOf(files[FileName(number) := bytes]);
        (n in store' <==> n in StoreOf(files) || n == number) && (n in store' ==> store'[n] == if n == number then bytes else StoreOf(files)[n])
    {
      StoreAtAfterWrite(files, number, bytes, n);
    }
  }

  lemma StoreAtAfterWrite(files: map<string, seq<byte>>, number: int32, bytes: seq<byte>, n: int32)
    requires AllCanonical(files) && AllCanonical(files[FileName(number) := bytes]) && number >= 0
    ensures var store' := StoreOf(files[FileName(number) := bytes]);
      (n in store' <==> n in StoreOf(files) || n == number) && (n in store' ==> store'[n] == if n == number then bytes else StoreOf(files)[n])
  {
    StoreAt(files, n);
    StoreAt(files[FileName(number) := bytes], n);
    NamesAreDistinct(number, n);
  }

  lemma NamesAreDistinct(number: int32, n: int32)
    requires number >= 0
    ensures FileName(n) == FileName(number) <==> n == number
  {
    ParsePrintedName(number);
    PrintParsedNameIff(FileName(number));
    if n >= 0 { ParsePrintedName(n); } else { NegativeNamesAreNotCanonical(n); }
  }

  datatype Listing = Listed(numbers: seq<int32>) | Unreadable

  /** The contents of a directory, by file name, and how `RFCManager` uses it. */
  class RfcManager {
    var files: map<string, seq<byte>>

    /** "." and ".." are directories. */
    ghost predicate Valid()
      reads this
    {
      "." !in files && ".." !in files
    }

    constructor (files: map<string, seq<byte>>)
      requires "." !in files && ".." !in files
      ensures Valid() && this.files == files
    {
      this.files := files;
    }

    /** `get_rfcs`: any directory order, "." and ".." skipped, one entry a file, sorted. */
    method GetRfcs() returns (listing: Listing)
      requires Valid()
      ensures listing.Listed? <==> forall name :: name in files ==> ParseFilename(name).Number?
      ensures listing.Listed? ==> Sorted(ASCENDING, listing.numbers) && |listing.numbers| == |files|
      ensures listing.Listed? ==> forall a, b :: 0 <= a < b < |listing.numbers| ==> listing.numbers[a] <= listing.numbers[b]
      ensures listing.Listed? ==> Elements(listing.numbers) == NumbersOf(files.Keys)
      ensures AllCanonical(files) ==> listing.Listed? && IsEnumeration(ASCENDING, listing.numbers, StoreOf(files).Keys)
    {
      var l: seq<int32> := [];
      var entries := files.Keys + {".", ".."};
      ghost var done: set<string> := {};
      while entries != {}
        invariant done <= files.Keys
        invariant forall name :: name in entries && name != "." && name != ".." <==> name in files && name !in done
        invariant forall name :: name in done ==> ParseFilename(name).Number?
        invariant |l| == |done| && Elements(l) == NumbersOf(done)
        decreases entries
      {
        var item :| item in entries;
        entries := entries - {item};
        if item == ".." || item == "." {
          continue;
        }
        var parsed := ParseFilename(item);
        if !parsed.Number? { return Unreadable; }
        NumbersGrow(done, item, l);
        l := l + [parsed.number];
        done := done + {item};
      }
      assert done == files.Keys;
      AscendingIsOrder();
      var sorted := Sort(ASCENDING, l);
      SameElements(sorted, l);
      if AllCanonical(files) { ListsKeys(files, sorted); }
      assert forall name :: name in done <==> name in files;
      forall a, b | 0 <= a < b < |sorted| ensures sorted[a] <= sorted[b] {
        assert !ASCENDING(sorted[b], sorted[a]);
      }
      return Listed(sorted);
    }

    /** `add_rfc` on a disk that can be written. */
    method AddRfc(number: int32, content: seq<byte>) returns (stored: bool)
      modifies this
      ensures stored && files == old(files)[FileName(number) := WrittenAs(content)]
      ensures AllCanonical(old(files)) && number >= 0 ==>
                AllCanonical(files) && StoreOf(files) == StoreOf(old(files))[number := WrittenAs(content)]
    {
      files := files[FileName(number) := CString(content)];
      if AllCanonical(old(files)) && number >= 0 {
        StoreAfterWrite(old(files), number, CString(content));
      }
      return true;
    }

    /** `get_content`; None stands for `FileReadException`. */
    method GetContent(number: int32) returns (content: Option<seq<byte>>)
      ensures content == if FileName(number) in files then Some(ReadAs(files[FileName(number)])) else None
      ensures AllCanonical(files) ==>
                content == Read(StoreOf(files), number)
    {
      if AllCanonical(files) { StoreAt(files, number); }
      if FileName(number) !in files {
        return None;
      }
      var fp := files[FileName(number)];
      var text := ReadAll(fp);
      return Some(text);
    }
  }

  /** The first `n` bytes are read when none of them ends the file and the next one, if any, does. */
  lemma {:induction false} ReadsUpTo(fp: seq<byte>, n: nat)
    requires n <= |fp| && 0xFF !in fp[..n] && (n < |fp| ==> fp[n] == 0xFF)
    ensures ReadAs(fp) == fp[..n]
  {
    if n > 0 {
      assert fp[..n] == [fp[0]] + fp[1..][..n - 1];
      ReadsUpTo(fp[1..], n - 1);
    }
  }

  /** The `fgetc` loop. */
  method ReadAll(fp: seq<byte>) returns (text: seq<byte>)
    ensures text == ReadAs(fp)
  {
    text := [];
    var pos := 0;
    while pos < |fp| && fp[pos] != EOF_BYTE
      invariant 0 <= pos <= |fp| && text == fp[..pos] && EOF_BYTE !in fp[..pos]
    {
      assert fp[..pos + 1] == fp[..pos] + [fp[pos]];
      text := text + [fp[pos]];
      pos := pos + 1;
    }
    ReadsUpTo(fp, pos);
  }

  lemma NumbersGrow(names: set<string>, name: string, l: seq<int32>)
    requires ParseFilename(name).Number? && Elements(l) == NumbersOf(names)
    ensures Elements(l + [ParseFilename(name).number]) == NumbersOf(names + {name})
  {
    assert NumbersOf(names + {name}) == NumbersOf(names) + {ParseFilename(name).number};
  }

  lemma SameElements(s: seq<int32>, t: seq<int32>)
    requires multiset(s) == multiset(t)
    ensures Elements(s) == Elements(t) && |s| == |t|
  {
    assert forall n :: n in s <==> n in multiset(s);
    assert forall n :: n in t <==> n in multiset(t);
    assert |s| == |multiset(s)| && |t| == |multiset(t)|;
  }

  /** On a directory of canonical names the sorted list of numbers has no repeats. */
  lemma ListsKeys(files: map<string, seq<byte>>, numbers: seq<int32>)
    requires AllCanonical(files) && Sorted(ASCENDING, numbers) && |numbers| == |files|
    requires Elements(numbers) == NumbersOf(files.Keys)
    ensures IsEnumeration(ASCENDING, numbers, StoreOf(files).Keys)
  {
    NumbersCount(files);
    FullLengthIsStrict(numbers);
    assert forall n :: n in numbers <==> n in Elements(numbers);
  }

  /** Canonical names of distinct files bear distinct numbers. */
  lemma NumbersCount(files: map<string, seq<byte>>)
    requires AllCanonical(files)
    ensures |NumbersOf(files.Keys)| == |files| && StoreOf(files).Keys == NumbersOf(files.Keys)
  {
    forall a, b | a in files && b in files && a != b ensures ParseFilename(a).number != ParseFilename(b).number {
      NamesDiffer(files, a, b);
    }
    InjectiveImage(files.Keys);
  }

  lemma NamesDiffer(files: map<string, seq<byte>>, a: string, b: string)
    requires AllCanonical(files) && a in files && b in files && a != b
    ensures ParseFilename(a).number != ParseFilename(b).number
  {
    PrintParsedNameIff(a);
    PrintParsedNameIff(b);
  }

  lemma NegativeNamesAreNotCanonical(n: int32)
    requires n < 0
    ensures !Canonical(FileName(n))
  {
    var name := FileName(n);
    assert name[3] == '-' && |name| >= 8;
    assert name[3] in name[3..|name| - 4];
  }

  lemma {:induction false} InjectiveImage(names: set<string>)
    requires forall a :: a in names ==> ParseFilename(a).Number?
    requires forall a, b :: a in names && b in names && a != b ==> ParseFilename(a).number != ParseFilename(b).number
    ensures |NumbersOf(names)| == |names|
  {
    if names != {} {
      var x :| x in names;
      InjectiveImage(names - {x});
      assert NumbersOf(names) == NumbersOf(names - {x}) + {ParseFilename(x).number};
    }
  }

  lemma {:induction false} ElementsAtMostLength(s: seq<int32>)
    ensures |Elements(s)| <= |s|
  {
    if s != [] {
      ElementsAtMostLength(s[1..]);
      assert s == [s[0]] + s[1..];
      assert Elements(s) == {s[0]} + Elements(s[1..]);
    }
  }

  /** A sorted list as long as its set of elements has no repeats. */
  lemma {:induction false} FullLengthIsStrict(s: seq<int32>)
    requires Sorted(ASCENDING, s) && |Elements(s)| == |s|
    ensures StrictlySorted(ASCENDING, s)
  {
    if s != [] {
      HeadIsNew(s);
      FullLengthIsStrict(s[1..]);
      forall j | 0 < j < |s| ensures ASCENDING(s[0], s[j]) {
        assert s[1..][j - 1] == s[j];
      }
    }
  }

  lemma HeadIsNew(s: seq<int32>)
    requires s != [] && |Elements(s)| == |s|
    ensures s[0] !in s[1..] && |Elements(s[1..])| == |s[1..]|
  {
    assert s == [s[0]] + s[1..];
    ElementsAtMostLength(s[1..]);
    assert Elements(s) == {s[0]} + Elements(s[1..]);
  }

  // ---- Runs of writes ----

  /** The store after a run of `add_rfc` calls. */
  function AfterWrites(store: map<int32, seq<byte>>, writes: seq<(int32, seq<byte>)>): map<int32, seq<byte>> {
    if writes == [] then store
    else
      var last := writes[|writes| - 1];
      AfterWrites(store, writes[..|writes| - 1])[last.0 := WrittenAs(last.1)]
  }

  /** Each number holds the last content written for it, or what it held before. */
  lemma {:induction false} LastWriteWins(store: map<int32, seq<byte>>, writes: seq<(int32, seq<byte>)>, n: int32, k: int)
    requires -1 <= k < |writes|
    requires forall i :: k < i < |writes| ==> writes[i].0 != n
    requires k >= 0 ==> writes[k].0 == n && 0 !in writes[k].1 && EOF_BYTE !in writes[k].1
    ensures k >= 0 ==> n in AfterWrites(store, writes) && ReadAs(AfterWrites(store, writes)[n]) == writes[k].1
    ensures k < 0 ==> (n in AfterWrites(store, writes) <==> n in store)
    ensures k < 0 && n in store ==> AfterWrites(store, writes)[n] == store[n]
  {
    if writes != [] {
      if k == |writes| - 1 {
        ContentSurvivesIff(writes[k].1);
      } else {
        LastWriteWins(store, writes[..|writes| - 1], n, k);
      }
    }
  }
}
