/** get_subtests_numbers of the LSB-VSX harness: the testcases a test's name selects in braces. */
module LsbNumbers {
  import opened Options
  import opened Strings

  /** The numbers in order; `None` stands for the ValueError. */
  type Numbers = Option<seq<int>>

  /** The numbers from lo up to, but not including, hi. */
  function Span(lo: int, hi: int): (s: seq<int>)
    ensures |s| == if lo < hi then hi - lo else 0
    ensures forall i :: 0 <= i < |s| ==> s[i] == lo + i
  {
    seq(if lo < hi then hi - lo else 0, i => lo + i)
  }

  // ---------------------------------------------------------------- the parts of the parser

  /** The end of the shortest stretch of at least one character, no newline, up to a closing brace. */
  function Closing(s: string, from: nat): Option<nat>
    requires from <= |s|
    decreases |s| - from
  {
    if from == |s| || s[from] == '\n' then None
    else if from > 0 && s[from] == '}' then Some(from)
    else Closing(s, from + 1)
  }

  /** re.search for a non-empty text in braces. */
  function InBraces(name: string): Option<string> {
    if name == "" then None
    else if name[0] == '{' && Closing(name[1..], 0).Some? then
      var n := Closing(name[1..], 0).value;
      ClosingInRange(name[1..], 0);
      Some(name[1..][..n])
    else InBraces(name[1..])
  }

  lemma ClosingInRange(s: string, from: nat)
    requires from <= |s|
    ensures Closing(s, from).Some? ==> from <= Closing(s, from).value < |s|
    decreases |s| - from
  {
  }

  /** str.split on one character. */
  function Split(s: string, sep: char): (parts: seq<string>)
    ensures parts != []
  {
    if s == "" then [""]
    else
      var rest := Split(s[1..], sep);
      if s[0] == sep then [""] + rest else [[s[0]] + rest[0]] + rest[1..]
  }

  predicate IsDigit(c: char) {
    '0' <= c <= '9'
  }

  function DigitValue(c: char): nat
    requires IsDigit(c)
  {
    c as int - '0' as int
  }

  /** Decimal digits with single underscores between them. */
  function Digits(s: string): Option<nat> {
    if s == "" || !IsDigit(s[|s| - 1]) then None
    else
      var n := |s| - 1;
      if n == 0 then Some(DigitValue(s[0]))
      else
        var high := Digits(if n >= 2 && s[n - 1] == '_' then s[..n - 1] else s[..n]);
        if high.None? then None else Some(10 * high.value + DigitValue(s[n]))
  }

  /** The blanks int() allows around a number: not quite those of str.isspace. */
  predicate IsSpace(c: char) {
    || '\t' <= c <= '\r' || c == ' '
    || c == '\U{85}' || c == '\U{a0}' || c == '\U{1680}' || '\U{2000}' <= c <= '\U{200a}'
    || c == '\U{2028}' || c == '\U{2029}' || c == '\U{202f}' || c == '\U{205f}' || c == '\U{3000}'
  }

  function Strip(s: string): string {
    if s != "" && IsSpace(s[0]) then Strip(s[1..])
    else if s != "" && IsSpace(s[|s| - 1]) then Strip(s[..|s| - 1])
    else s
  }

  /** int() of a string: blanks around it, a sign, digits. */
  function Int(s: string): Option<int> {
    var t := Strip(s);
    var signed := t != "" && (t[0] == '+' || t[0] == '-');
    match Digits(if signed then t[1..] else t)
    case None => None
    case Some(n) => Some(if signed && t[0] == '-' then 0 - n as int else n as int)
  }

  /** One comma-separated part: a number, or exactly two around a dash. */
  function Part(part: string): Numbers {
    if '-' in part then
      var ends := Split(part, '-');
      if |ends| != 2 then None
      else if Int(ends[0]).None? || Int(ends[1]).None? then None
      else Some(Span(Int(ends[0]).value, Int(ends[1]).value + 1))
    else if Int(part).None? then None
    else Some([Int(part).value])
  }

  function Parts(parts: seq<string>): Numbers {
    if parts == [] then Some([])
    else
      var n := |parts| - 1;
      var before := Parts(parts[..n]);
      if before.None? || Part(parts[n]).None? then None
      else Some(before.value + Part(parts[n]).value)
  }

  function Selection(name: string): Numbers {
    match InBraces(name)
    case None => Some(Span(1, 100))
    case Some(list) => Parts(Split(list, ','))
  }

  lemma {:induction false} BadPrefix(parts: seq<string>, i: nat)
    requires i <= |parts| && Parts(parts[..i]).None?
    ensures Parts(parts).None?
    decreases |parts|
  {
    if i < |parts| {
      var n := |parts| - 1;
      assert parts[..n][..i] == parts[..i];
      BadPrefix(parts[..n], i);
    } else {
      assert parts[..i] == parts;
    }
  }

  /** One part: the harness extends its list with a range or appends a number. */
  method ReadPart(part: string) returns (r: Numbers)
    ensures r == Part(part)
  {
    hide Split, Int, Span;
    if '-' in part {
      var ends := Split(part, '-');
      if |ends| != 2 {
        return None;
      }
      var start, end := Int(ends[0]), Int(ends[1]);
      if start.None? || end.None? {
        return None;
      }
      r := Some(Span(start.value, end.value + 1));
    } else {
      var n := Int(part);
      if n.None? {
        return None;
      }
      r := Some([n.value]);
    }
  }

  /** The harness's loop over the parts. */
  method GetSubtestsNumbers(name: string) returns (r: Numbers)
    ensures r == Selection(name)
  {
    hide Part, Split, InBraces, Span;
    var found := InBraces(name);
    if found.None? {
      return Some(Span(1, 100));
    }
    var parts := Split(found.value, ',');
    var nums: seq<int> := [];
    for i := 0 to |parts|
      invariant Parts(parts[..i]) == Some(nums)
    {
      assert parts[..i + 1][..i] == parts[..i];
      var more := ReadPart(parts[i]);
      if more.None? {
        BadPrefix(parts, i + 1);
        return None;
      }
      nums := nums + more.value;
    }
    assert parts[..|parts|] == parts;
    r := Some(nums);
  }

  // ---------------------------------------------------------------- printing

  datatype Item = One(n: nat) | Range(lo: nat, hi: nat)

  function Decimal(n: nat): string {
    if n < 10 then [('0' as int + n) as char]
    else Decimal(n / 10) + [('0' as int + n % 10) as char]
  }

  function PrintItem(item: Item): string {
    match item
    case One(n) => Decimal(n)
    case Range(lo, hi) => Decimal(lo) + "-" + Decimal(hi)
  }

  function Print(items: seq<Item>): string
    requires items != []
  {
    if |items| == 1 then PrintItem(items[0]) else PrintItem(items[0]) + "," + Print(items[1..])
  }

  function Meaning(items: seq<Item>): seq<int> {
    if items == [] then []
    else
      var n := |items| - 1;
      Meaning(items[..n]) +
      match items[n]
      case One(k) => [k]
      case Range(lo, hi) => Span(lo, hi + 1)
  }

  // ---------------------------------------------------------------- parsing undoes printing

  predicate AllDigits(s: string) {
    s != "" && forall i :: 0 <= i < |s| ==> IsDigit(s[i])
  }

  lemma {:induction false} DecimalDigits(n: nat)
    ensures AllDigits(Decimal(n)) && Digits(Decimal(n)) == Some(n)
  {
    if n >= 10 {
      DecimalDigits(n / 10);
      var s := Decimal(n);
      assert s[..|s| - 1] == Decimal(n / 10);
    }
  }

  lemma IntOfDecimal(n: nat)
    ensures Int(Decimal(n)) == Some(n)
  {
    hide Decimal, Digits;
    DecimalDigits(n);
    StripDigits(Decimal(n));
    hide Strip;
  }

  lemma StripDigits(s: string)
    requires AllDigits(s)
    ensures Strip(s) == s
  {
  }

  lemma {:induction false} SplitWhole(s: string, sep: char)
    requires Without(s, sep)
    ensures Split(s, sep) == [s]
  {
    if s != "" {
      SplitWhole(s[1..], sep);
      assert s == [s[0]] + s[1..];
    }
  }

  lemma {:induction false} SplitAt(s: string, sep: char, t: string)
    requires Without(s, sep)
    ensures Split(s + [sep] + t, sep) == [s] + Split(t, sep)
  {
    var u := s + [sep] + t;
    if s == "" {
      assert u[1..] == t;
    } else {
      assert u[1..] == s[1..] + [sep] + t;
      SplitAt(s[1..], sep, t);
      assert s == [s[0]] + s[1..];
    }
  }

  lemma PartOfItem(item: Item)
    ensures Part(PrintItem(item)) == Some(match item case One(k) => [k] case Range(lo, hi) => Span(lo, hi + 1))
  {
    hide Decimal, Digits, Int, Split, Span;
    match item
    case One(n) =>
      DecimalDigits(n);
      IntOfDecimal(n);
    case Range(lo, hi) =>
      DecimalDigits(lo);
      DecimalDigits(hi);
      IntOfDecimal(lo);
      IntOfDecimal(hi);
      var s := Decimal(lo) + ['-'] + Decimal(hi);
      assert s[|Decimal(lo)|] == '-';
      SplitAt(Decimal(lo), '-', Decimal(hi));
      SplitWhole(Decimal(hi), '-');
      assert Split(s, '-') == [Decimal(lo), Decimal(hi)];
  }

  /** Only digits, dashes and commas. */
  predicate ListChars(s: string) {
    forall i :: 0 <= i < |s| ==> IsDigit(s[i]) || s[i] == '-' || s[i] == ','
  }

  lemma ItemChars(item: Item)
    ensures PrintItem(item) != "" && ListChars(PrintItem(item)) && Without(PrintItem(item), ',')
  {
    match item
    case One(n) => DecimalDigits(n);
    case Range(lo, hi) =>
      DecimalDigits(lo);
      DecimalDigits(hi);
  }

  function PrintedItems(items: seq<Item>): seq<string> {
    seq(|items|, i requires 0 <= i < |items| => PrintItem(items[i]))
  }

  lemma {:induction false} SplitPrinted(items: seq<Item>)
    requires items != []
    ensures Split(Print(items), ',') == PrintedItems(items)
    ensures Print(items) != "" && ListChars(Print(items))
  {
    hide Split, PrintItem;
    ItemChars(items[0]);
    if |items| == 1 {
      SplitWhole(Print(items), ',');
    } else {
      SplitPrinted(items[1..]);
      assert Print(items) == PrintItem(items[0]) + [','] + Print(items[1..]);
      SplitAt(PrintItem(items[0]), ',', Print(items[1..]));
      assert PrintedItems(items) == [PrintItem(items[0])] + PrintedItems(items[1..]);
    }
  }

  lemma {:induction false} PartsOfItems(items: seq<Item>)
    ensures Parts(PrintedItems(items)) == Some(Meaning(items))
  {
    if items != [] {
      var n := |items| - 1;
      PartsOfItems(items[..n]);
      assert PrintedItems(items)[..n] == PrintedItems(items[..n]);
      PartOfItem(items[n]);
    }
  }

  lemma {:induction false} ClosingFound(list: string, suffix: string, from: nat)
    requires list != "" && ListChars(list) && from <= |list|
    ensures Closing(list + "}" + suffix, from) == Some(|list|)
    decreases |list| - from
  {
    if from < |list| {
      ClosingFound(list, suffix, from + 1);
    }
  }

  lemma {:induction false} BracesFound(prefix: string, list: string, suffix: string)
    requires Without(prefix, '{') && list != "" && ListChars(list)
    ensures InBraces(prefix + "{" + list + "}" + suffix) == Some(list)
  {
    var name := prefix + "{" + list + "}" + suffix;
    if prefix == "" {
      assert name[1..] == list + "}" + suffix;
      ClosingFound(list, suffix, 0);
      assert (list + "}" + suffix)[..|list|] == list;
    } else {
      assert name[1..] == prefix[1..] + "{" + list + "}" + suffix;
      BracesFound(prefix[1..], list, suffix);
    }
  }

  /** Every printed selection is read back as the numbers it means, wherever it stands in the name. */
  lemma SelectionRoundTrip(prefix: string, items: seq<Item>, suffix: string)
    requires Without(prefix, '{') && items != []
    ensures Selection(prefix + "{" + Print(items) + "}" + suffix) == Some(Meaning(items))
  {
    SplitPrinted(items);
    BracesFound(prefix, Print(items), suffix);
    PartsOfItems(items);
  }
}
