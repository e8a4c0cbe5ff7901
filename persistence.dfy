/**
 * The tasks file, `class Persistence` (Cursach/Persistence.cpp). The file is
 * a string: `Save` builds the text it streams to the file, `Load` parses the
 * text read back. Opening, renaming and deleting files are left out; a file
 * that cannot be opened is None.
 */
module Persistence {
  import opened Wrappers
  import opened Numeric
  import opened WString
  import opened Calendar
  import opened Tasks
  import opened Utils

  // ---------------------------------------------------------------------------
  // The weekday mask
  // ---------------------------------------------------------------------------

  function Pow2(k: nat): (p: nat)
    ensures p >= 1
  {
    if k == 0 then 1 else 2 * Pow2(k - 1)
  }

  /** The number whose bit k is set exactly when `days[k]` holds: the sum of 2^k over the set days. */
  function Pack(days: seq<bool>): nat {
    if days == [] then 0 else (if days[0] then 1 else 0) + 2 * Pack(days[1..])
  }

  /** The low `n` bits of `m`, lowest first: how `std::bitset` is built from an integer. */
  function Unpack(m: nat, n: nat): (r: seq<bool>)
    ensures |r| == n
  {
    if n == 0 then [] else [m % 2 == 1] + Unpack(m / 2, n - 1)
  }

  /** Load's reading of the stored mask: `(unsigned long)` (32 bits), then `& 0x7F`, then the bit set. */
  function DaysFromMask(v: int): WeekDays {
    Unpack(ToUint32(v) % 0x80, 7)
  }

  lemma {:induction false} PackBound(days: seq<bool>)
    ensures Pack(days) < Pow2(|days|)
  {
    if days != [] {
      PackBound(days[1..]);
    }
  }

  /** Adding day k to the first k days sets bit k: the step of Save's `days |= (1 << k)` loop. */
  lemma {:induction false} PackSnoc(days: seq<bool>, b: bool)
    ensures Pack(days + [b]) == Pack(days) + (if b then Pow2(|days|) else 0)
  {
    if days != [] {
      assert (days + [b])[1..] == days[1..] + [b];
      PackSnoc(days[1..], b);
    }
  }

  /** Unpacking the packed mask gives the days back. */
  lemma {:induction false} UnpackPack(days: seq<bool>)
    ensures Unpack(Pack(days), |days|) == days
  {
    if days != [] {
      var m := Pack(days);
      assert m % 2 == (if days[0] then 1 else 0) && m / 2 == Pack(days[1..]);
      UnpackPack(days[1..]);
    }
  }

  lemma MulAtLeast(d: int, k: int)
    requires d > 0 && k >= 1
    ensures d * k >= d
  {
  }

  /** Euclidean division is unique. */
  lemma DivModUnique(m: int, d: int, a: int, r: int)
    requires d > 0 && m == d * a + r && 0 <= r < d
    ensures m / d == a && m % d == r
  {
    var q := m / d;
    var s := m % d;
    assert m == d * q + s && 0 <= s < d;
    if q > a {
      MulAtLeast(d, q - a);
    } else if q < a {
      MulAtLeast(d, a - q);
    }
  }

  /** The lowest bit and the rest: m mod 2p from m mod 2 and (m / 2) mod p. */
  lemma ModDouble(m: nat, p: nat)
    requires p >= 1
    ensures m % (2 * p) == 2 * ((m / 2) % p) + m % 2
  {
    var q, b := m / 2, m % 2;
    var a, c := q / p, q % p;
    assert m == (2 * p) * a + (2 * c + b);
    DivModUnique(m, 2 * p, a, 2 * c + b);
  }

  /** Packing the low `n` bits of `m` gives `m` modulo 2^n. */
  lemma {:induction false} PackUnpack(m: nat, n: nat)
    ensures Pack(Unpack(m, n)) == m % Pow2(n)
  {
    if n > 0 {
      PackUnpack(m / 2, n - 1);
      assert Unpack(m, n)[1..] == Unpack(m / 2, n - 1);
      ModDouble(m, Pow2(n - 1));
    }
  }

  lemma Pow2Of7()
    ensures Pow2(7) == 0x80
  {
    assert Pow2(1) == 2;
    assert Pow2(3) == 8;
    assert Pow2(5) == 32;
  }

  /** The 7-bit weekday mask survives the trip through the file. */
  lemma MaskRoundTrip(days: WeekDays)
    ensures Pack(days) < 0x80
    ensures DaysFromMask(Pack(days)) == days
  {
    PackBound(days);
    Pow2Of7();
    var m := Pack(days);
    assert ToUint32(m) == m;
    assert m % 0x80 == m;
    UnpackPack(days);
  }

  /** What is read back is the stored number's low seven bits, and only those. */
  lemma MaskReadsLowBits(v: int)
    ensures Pack(DaysFromMask(v)) == ToUint32(v) % 0x80
  {
    var m := ToUint32(v) % 0x80;
    Pow2Of7();
    DivModUnique(m, Pow2(7), 0, m);
    PackUnpack(m, 7);
  }

  // ---------------------------------------------------------------------------
  // Save: the text of the file
  // ---------------------------------------------------------------------------

  /** One `"key": value,` line of a record. */
  function Line(key: string, value: string): string {
    "      \"" + key + "\": " + value + ",\n"
  }

  /** A string value as written: EscapeJSON's output in quotes. */
  function InQuotes(escaped: string): string {
    "\"" + escaped + "\""
  }

  /** The text of a list of pieces, one after the other. */
  function Concat(pieces: seq<string>): string {
    if pieces == [] then "" else Concat(pieces[..|pieces| - 1]) + pieces[|pieces| - 1]
  }

  /** The lines of a record up to its last field, given the six escaped strings and the packed mask. */
  function RecordFields(t: Task, id: string, name: string, description: string, exePath: string,
                        arguments: string, workingDirectory: string, days: nat): seq<string> {
    StringLines(id, name, description, exePath, arguments, workingDirectory) + ValueLines(t, days)
  }

  /** The opening brace of a record and its six string fields. */
  function StringLines(id: string, name: string, description: string, exePath: string,
                       arguments: string, workingDirectory: string): seq<string> {
    [ "    {\n",
      Line("id", InQuotes(id)),
      Line("name", InQuotes(name)),
      Line("description", InQuotes(description)),
      Line("exePath", InQuotes(exePath)),
      Line("arguments", InQuotes(arguments)),
      Line("workingDirectory", InQuotes(workingDirectory)) ]
  }

  /** The boolean and numeric fields of a record, `runIfMissed` last and without a comma. */
  function ValueLines(t: Task, days: nat): seq<string> {
    [ Line("enabled", BoolText(t.enabled)),
      Line("triggerType", IntToDecimal(t.triggerType)),
      Line("intervalMinutes", NatToDecimal(t.intervalMinutes)),
      Line("dailyHour", NatToDecimal(t.dailyHour)),
      Line("dailyMinute", NatToDecimal(t.dailyMinute)),
      Line("dailySecond", NatToDecimal(t.dailySecond)),
      Line("weeklyDays", NatToDecimal(days)),
      Line("weeklyHour", NatToDecimal(t.weeklyHour)),
      Line("weeklyMinute", NatToDecimal(t.weeklyMinute)),
      Line("weeklySecond", NatToDecimal(t.weeklySecond)),
      "      \"runIfMissed\": " + BoolText(t.runIfMissed) + "\n" ]
  }

  /** The closing brace of a record; `more` says another record follows, which puts a comma after it. */
  function RecordClose(more: bool): string {
    "    }" + (if more then "," else "") + "\n"
  }

  /** The lines of one record as Save writes them. */
  function RecordLines(t: Task, more: bool): seq<string> {
    RecordFields(t, Escape(t.id), Escape(t.name), Escape(t.description), Escape(t.exePath),
                 Escape(t.arguments), Escape(t.workingDirectory), Pack(t.weeklyDays))
    + [RecordClose(more)]
  }

  /** One record as Save writes it. */
  function RecordText(t: Task, more: bool): string {
    Concat(RecordLines(t, more))
  }

  /** The records of the first `n` tasks of the list. */
  function RecordsUpTo(tasks: seq<Task>, n: nat): string
    requires n <= |tasks|
  {
    if n == 0 then "" else RecordsUpTo(tasks, n - 1) + RecordText(tasks[n - 1], n < |tasks|)
  }

  const HEADER := "{\n  \"tasks\": [\n"
  const FOOTER := "  ]\n}\n"

  /** The whole file. */
  function Document(tasks: seq<Task>): string {
    HEADER + RecordsUpTo(tasks, |tasks|) + FOOTER
  }

  predicate EndsWith(s: string, suffix: string) {
    |suffix| <= |s| && s[|s| - |suffix|..] == suffix
  }

  lemma EndsWithAppend(a: string, b: string)
    ensures EndsWith(a + b, b)
  {
    assert (a + b)[|a + b| - |b|..] == b;
  }

  /** The text of some pieces followed by `last` ends in `last`. */
  lemma ConcatEndsWith(pieces: seq<string>, last: string)
    ensures EndsWith(Concat(pieces + [last]), last)
  {
    ConcatAppend(pieces, [last]);
    ConcatSingle(last);
    EndsWithAppend(Concat(pieces), last);
  }

  /** Every record but the last ends in a comma, the last does not. */
  lemma RecordSeparators(t: Task, more: bool)
    ensures more ==> EndsWith(RecordText(t, more), "    },\n")
    ensures !more ==> EndsWith(RecordText(t, more), "    }\n")
  {
    ConcatEndsWith(RecordFields(t, Escape(t.id), Escape(t.name), Escape(t.description), Escape(t.exePath),
                                Escape(t.arguments), Escape(t.workingDirectory), Pack(t.weeklyDays)),
                   RecordClose(more));
  }

  /** Save's `for (int k = 0; k < 7; ++k) if (weeklyDays.test(k)) days |= (1 << k);`. */
  method PackDays(weeklyDays: WeekDays) returns (days: nat)
    ensures days == Pack(weeklyDays)
  {
    days := 0;
    var bit := 1;
    for k := 0 to 7
      invariant days == Pack(weeklyDays[..k]) && bit == Pow2(k)
      invariant days < bit
    {
      assert weeklyDays[..k + 1] == weeklyDays[..k] + [weeklyDays[k]];
      PackSnoc(weeklyDays[..k], weeklyDays[k]);
      PackBound(weeklyDays[..k + 1]);
      if weeklyDays[k] {
        // days < bit, so `days |= bit` adds bit
        days := days + bit;
      }
      bit := 2 * bit;
    }
    assert weeklyDays[..7] == weeklyDays;
  }

  lemma AppendAssoc(a: string, b: string, c: string)
    ensures (a + b) + c == a + (b + c)
  {
  }

  /** The text `Persistence::Save` streams: the header, one record per task, the footer. */
  method SaveText(tasks: seq<Task>) returns (text: string)
    ensures text == Document(tasks)
  {
    text := HEADER;
    for i := 0 to |tasks|
      invariant text == HEADER + RecordsUpTo(tasks, i)
    {
      var t := tasks[i];
      var id := EscapeJSON(t.id);
      var name := EscapeJSON(t.name);
      var description := EscapeJSON(t.description);
      var exePath := EscapeJSON(t.exePath);
      var arguments := EscapeJSON(t.arguments);
      var workingDirectory := EscapeJSON(t.workingDirectory);
      var days := PackDays(t.weeklyDays);
      var record := Concat(RecordFields(t, id, name, description, exePath, arguments, workingDirectory, days)
                           + [RecordClose(i + 1 < |tasks|)]);
      AppendAssoc(HEADER, RecordsUpTo(tasks, i), record);
      text := text + record;
    }
    text := text + FOOTER;
  }

  // ---------------------------------------------------------------------------
  // Load: the field readers of one record block
  // ---------------------------------------------------------------------------

  /** The quoted key the readers search for. */
  function Quoted(key: string): string {
    "\"" + key + "\""
  }

  /**
   * The raw text `getString` takes for a key found at `p`: what lies between
   * the first two quotes after the first colon from `p` on, by the `size_t`
   * arithmetic of the source (a missing colon or quote is `npos`).
   */
  function QuotedValue(block: string, p: nat): string {
    var colon := SizeOf(Find(block, ":", p));
    var q1 := SizeOf(Find(block, "\"", colon));
    var q2 := SizeOf(Find(block, "\"", SizeAdd(q1, 1)));
    Substr(block, SizeAdd(q1, 1), SizeSub(SizeSub(q2, q1), 1))
  }

  /** The `getString` lambda: "" for a missing key, else the raw value after it, unescaped. */
  function GetString(block: string, key: string): string {
    match Find(block, Quoted(key), 0)
    case None => ""
    case Some(p) => Unescape(QuotedValue(block, p))
  }

  const NUMBER_START := "-0123456789"

  /** Where the `while (e < size && (iswdigit || '-'))` loop of `getInt` stops. */
  function NumberEnd(block: string, e: nat): (r: nat)
    ensures e <= r
    ensures e <= |block| ==> r <= |block|
    decreases |block| - e
  {
    if e < |block| && (IsDigit(block[e]) || block[e] == '-') then NumberEnd(block, e + 1) else e
  }

  /**
   * The `getInt` lambda: 0 for a missing key; otherwise `std::stoll` of the run
   * of digits and minus signs from the first one after the colon. None is an
   * exception: no such run (`substr` past the end), or `stoll` rejecting it.
   */
  function GetInt(block: string, key: string): Option<int64> {
    match Find(block, Quoted(key), 0)
    case None => Some(0)
    case Some(p) =>
      var colon := SizeOf(Find(block, ":", p));
      var s := SizeOf(FindFirstOf(block, NUMBER_START, colon));
      if s > |block| then None
      else StoLL(Substr(block, s, SizeSub(NumberEnd(block, s), s)))
  }

  /** `getInt`, with its scanning loop. */
  method GetIntField(block: string, key: string) returns (r: Option<int64>)
    ensures r == GetInt(block, key)
  {
    var p := Find(block, Quoted(key), 0);
    if p.None? {
      return Some(0);
    }
    var colon := SizeOf(Find(block, ":", p.value));
    var s := SizeOf(FindFirstOf(block, NUMBER_START, colon));
    var e := s;
    while e < |block| && (IsDigit(block[e]) || block[e] == '-')
      invariant s <= e
      invariant NumberEnd(block, e) == NumberEnd(block, s)
      decreases |block| - e
    {
      e := e + 1;
    }
    if s > |block| {
      return None;
    }
    r := StoLL(Substr(block, s, SizeSub(e, s)));
  }

  /** `getString`, unescaping with UnescapeJSON. */
  method GetStringField(block: string, key: string) returns (r: string)
    ensures r == GetString(block, key)
  {
    var p := Find(block, Quoted(key), 0);
    if p.None? {
      return "";
    }
    var colon := SizeOf(Find(block, ":", p.value));
    var q1 := SizeOf(Find(block, "\"", colon));
    var q2 := SizeOf(Find(block, "\"", SizeAdd(q1, 1)));
    var raw := Substr(block, SizeAdd(q1, 1), SizeSub(SizeSub(q2, q1), 1));
    r := UnescapeJSON(raw);
  }

  const BLANKS := " \t\r\n"

  /**
   * The `enabled` / `runIfMissed` readers: the default for a missing key;
   * otherwise whether the first non-blank text after the colon starts with `true`.
   */
  function GetBool(block: string, key: string, default: bool): bool {
    match Find(block, Quoted(key), 0)
    case None => default
    case Some(p) =>
      var colon := SizeOf(Find(block, ":", p));
      match FindFirstNotOf(block, BLANKS, SizeAdd(colon, 1))
      case None => false
      case Some(s) => Substr(block, s, 4) == "true"
  }

  /** The keys of the six `getString` reads, in the order the source reads them. */
  const STRING_KEYS: seq<string> := ["id", "name", "description", "exePath", "arguments", "workingDirectory"]

  /** The keys of the nine `getInt` reads, in the order the source reads them. */
  const INT_KEYS: seq<string> := ["triggerType", "intervalMinutes", "dailyHour", "dailyMinute", "dailySecond",
                                  "weeklyDays", "weeklyHour", "weeklyMinute", "weeklySecond"]

  /** `getString` of each key. */
  function GetStrings(block: string, keys: seq<string>): (r: seq<string>)
    ensures |r| == |keys|
  {
    if keys == [] then [] else [GetString(block, keys[0])] + GetStrings(block, keys[1..])
  }

  /** `getInt` of each key in turn; None once one of them throws. */
  function GetInts(block: string, keys: seq<string>): (r: Option<seq<int64>>)
    ensures r.Some? ==> |r.value| == |keys|
  {
    if keys == [] then Some([])
    else
      match GetInt(block, keys[0])
      case None => None
      case Some(v) =>
        match GetInts(block, keys[1..])
        case None => None
        case Some(vs) => Some([v] + vs)
  }

  lemma {:induction false} GetStringsAre(block: string, keys: seq<string>, vals: seq<string>)
    requires |vals| == |keys|
    requires forall j :: 0 <= j < |keys| ==> vals[j] == GetString(block, keys[j])
    ensures GetStrings(block, keys) == vals
  {
    if keys != [] {
      GetStringsAre(block, keys[1..], vals[1..]);
      assert [vals[0]] + vals[1..] == vals;
    }
  }

  /** One throwing read makes the whole sequence of reads throw. */
  lemma {:induction false} GetIntsThrows(block: string, keys: seq<string>, j: nat)
    requires j < |keys| && GetInt(block, keys[j]).None?
    ensures GetInts(block, keys).None?
  {
    if j > 0 && GetInt(block, keys[0]).Some? {
      GetIntsThrows(block, keys[1..], j - 1);
    }
  }

  /** When every read returns, the sequence of reads returns their values. */
  lemma {:induction false} GetIntsReturns(block: string, keys: seq<string>, vals: seq<int64>)
    requires |vals| == |keys|
    requires forall j :: 0 <= j < |keys| ==> GetInt(block, keys[j]) == Some(vals[j])
    ensures GetInts(block, keys) == Some(vals)
  {
    if keys != [] {
      assert GetInt(block, keys[0]) == Some(vals[0]);
      GetIntsReturns(block, keys[1..], vals[1..]);
      assert [vals[0]] + vals[1..] == vals;
    }
  }

  /**
   * A record block as a task: defaults for what is missing, the integer casts,
   * a generated id when empty; None when a `getInt` throws.
   */
  function ParseRecord(block: string, guid: string): Option<Task> {
    var strings := GetStrings(block, STRING_KEYS);
    match GetInts(block, INT_KEYS)
    case None => None
    case Some(v) =>
      Some(NewTask().(
        id := if strings[0] == "" then guid else strings[0],
        name := strings[1],
        description := strings[2],
        exePath := strings[3],
        arguments := strings[4],
        workingDirectory := strings[5],
        enabled := GetBool(block, "enabled", NewTask().enabled),
        triggerType := ToInt32(v[0]),
        intervalMinutes := ToUint32(v[1]),
        dailyHour := ToUint8(v[2]),
        dailyMinute := ToUint8(v[3]),
        dailySecond := ToUint8(v[4]),
        weeklyDays := DaysFromMask(v[5]),
        weeklyHour := ToUint8(v[6]),
        weeklyMinute := ToUint8(v[7]),
        weeklySecond := ToUint8(v[8]),
        runIfMissed := GetBool(block, "runIfMissed", NewTask().runIfMissed)))
  }

  /** The six strings of a record, read one after another. */
  method ReadStrings(block: string) returns (r: seq<string>)
    ensures r == GetStrings(block, STRING_KEYS)
  {
    r := [];
    for k := 0 to |STRING_KEYS|
      invariant |r| == k
      invariant forall j :: 0 <= j < k ==> r[j] == GetString(block, STRING_KEYS[j])
    {
      var s := GetStringField(block, STRING_KEYS[k]);
      r := r + [s];
    }
    GetStringsAre(block, STRING_KEYS, r);
  }

  /** The nine integers of a record, read one after another up to the first exception. */
  method ReadInts(block: string) returns (r: Option<seq<int64>>)
    ensures r == GetInts(block, INT_KEYS)
  {
    var vals: seq<int64> := [];
    for k := 0 to 9
      invariant |vals| == k
      invariant forall j :: 0 <= j < k ==> GetInt(block, INT_KEYS[j]) == Some(vals[j])
    {
      var v := GetIntField(block, INT_KEYS[k]);
      if v.None? {
        GetIntsThrows(block, INT_KEYS, k);
        return None;
      }
      vals := vals + [v.value];
    }
    GetIntsReturns(block, INT_KEYS, vals);
    return Some(vals);
  }

  /** The block's fields read in the order of the source, stopping at the first exception. */
  method ParseBlock(block: string, guid: string) returns (r: Option<Task>)
    ensures r == ParseRecord(block, guid)
  {
    var t := NewTask();
    var strings := ReadStrings(block);
    t := t.(id := strings[0], name := strings[1], description := strings[2], exePath := strings[3],
            arguments := strings[4], workingDirectory := strings[5]);
    t := t.(enabled := GetBool(block, "enabled", t.enabled));
    var ints := ReadInts(block);
    if ints.None? {
      return None;
    }
    var v := ints.value;
    t := t.(triggerType := ToInt32(v[0]), intervalMinutes := ToUint32(v[1]),
            dailyHour := ToUint8(v[2]), dailyMinute := ToUint8(v[3]), dailySecond := ToUint8(v[4]),
            weeklyDays := DaysFromMask(v[5]),
            weeklyHour := ToUint8(v[6]), weeklyMinute := ToUint8(v[7]), weeklySecond := ToUint8(v[8]));
    t := t.(runIfMissed := GetBool(block, "runIfMissed", t.runIfMissed));
    if t.id == "" {
      t := t.(id := guid);
    }
    return Some(t);
  }

  // ---------------------------------------------------------------------------
  // Load: the block scanner
  // ---------------------------------------------------------------------------

  /** The depth, quote and escape state at the start of a record, just after its `{`. */
  const IN_BLOCK := ScanState(1, false, false)

  /**
   * The `for (; i < size; ++i)` scan for the block's closing brace: the first
   * index at which, outside quotes and not after a backslash, the depth drops
   * to 0; the length of the content when there is none.
   */
  function BlockEnd(content: string, i: nat, st: ScanState): (r: nat)
    ensures i <= |content| ==> i <= r <= |content|
    decreases |content| - i
  {
    if i >= |content| then |content|
    else
      var next := ScanStep(st, content[i]);
      if !st.escape && content[i] != '\\' && !next.inQuotes && next.depth == 0 then i
      else BlockEnd(content, i + 1, next)
  }

  /**
   * The record blocks from cursor `cur` on as tasks: each runs from a `{` to its
   * closing brace, and the scan ends when no complete block is left; the block
   * read k-th gets `guid(k)` if it has no id.
   */
  function LoadFrom(content: string, cur: nat, k: nat, guid: nat -> string): Option<seq<Task>>
    decreases |content| + 1 - cur, 2
  {
    match Find(content, "{", cur)
    case None => Some([])
    case Some(start) => LoadBlock(content, start, k, guid)
  }

  /** The block opened by the `{` at `start`: nothing if it never closes, else its task and the blocks after it. */
  function LoadBlock(content: string, start: nat, k: nat, guid: nat -> string): Option<seq<Task>>
    requires start < |content|
    decreases |content| + 1 - start, 1
  {
    var i := BlockEnd(content, start + 1, IN_BLOCK);
    if i >= |content| then Some([]) else LoadAt(content, start, i, k, guid)
  }

  /** The block from `start` to its closing brace at `i` as a task, then the blocks after it; None is an exception from `getInt`. */
  function LoadAt(content: string, start: nat, i: nat, k: nat, guid: nat -> string): Option<seq<Task>>
    requires start <= i < |content|
    decreases |content| + 1 - i, 0
  {
    Prepend(ParseRecord(content[start..i + 1], guid(k)), LoadFrom(content, i + 1, k + 1, guid))
  }

  /** A parsed task before what the rest of the scan returns; an exception from either is the result. */
  function Prepend(t: Option<Task>, rest: Option<seq<Task>>): Option<seq<Task>> {
    match t
    case None => None
    case Some(x) => Then([x], rest)
  }

  /** `out` followed by what the rest of the scan returns. */
  function Then(out: seq<Task>, rest: Option<seq<Task>>): Option<seq<Task>> {
    match rest
    case None => None
    case Some(r) => Some(out + r)
  }

  /** What `Persistence::Load` returns for the file's contents (None: no file); None as a result is an exception. */
  function LoadContent(file: Option<string>, guid: nat -> string): Option<seq<Task>> {
    if file.None? then Some([])
    else
      var content := file.value;
      if !Balanced(content) then Some([])
      else
        match Find(content, "\"tasks\"", 0)
        case None => Some([])
        case Some(pos) =>
          match Find(content, "[", pos)
          case None => Some([])
          case Some(pos2) => LoadFrom(content, pos2 + 1, 0, guid)
  }

  /** The inner `for` loop of Load: from just after the `{` at `start` to the index of its closing brace, or the end. */
  method ScanBlock(content: string, start: nat) returns (i: nat)
    requires start < |content|
    ensures i == BlockEnd(content, start + 1, IN_BLOCK)
  {
    var depth := 1;
    var inQuotes := false;
    var escape := false;
    i := start + 1;
    while i < |content|
      invariant start + 1 <= i <= |content|
      invariant depth >= 1
      invariant BlockEnd(content, i, ScanState(depth, inQuotes, escape)) == BlockEnd(content, start + 1, IN_BLOCK)
      decreases |content| - i
    {
      ghost var before := ScanState(depth, inQuotes, escape);
      var c := content[i];
      if escape {
        escape := false;
        i := i + 1;
        continue;
      }
      if c == '\\' {
        escape := true;
        i := i + 1;
        continue;
      }
      if c == '"' {
        inQuotes := !inQuotes;
      }
      if !inQuotes {
        if c == '{' {
          depth := depth + 1;
        } else if c == '}' {
          depth := depth - 1;
        }
        if depth == 0 {
          assert BlockEnd(content, i, before) == i;
          break;
        }
      }
      assert ScanState(depth, inQuotes, escape) == ScanStep(before, c);
      i := i + 1;
    }
  }

  lemma ThenAppend(out: seq<Task>, t: Task, rest: Option<seq<Task>>)
    ensures Then(out, Then([t], rest)) == Then(out + [t], rest)
  {
    if rest.Some? {
      assert out + ([t] + rest.value) == (out + [t]) + rest.value;
    }
  }

  /**
   * Parses the block the cursor found at `cur`, from the `{` at `start` to its
   * closing brace at `i`: the scan from `cur` is that task, or its exception,
   * before the scan after the block.
   */
  method ParseFound(content: string, cur: nat, start: nat, i: nat, k: nat, guid: nat -> string) returns (t: Option<Task>)
    requires Find(content, "{", cur) == Some(start)
    requires i == BlockEnd(content, start + 1, IN_BLOCK) && i < |content|
    ensures cur <= start < i
    ensures LoadFrom(content, cur, k, guid) == Prepend(t, LoadFrom(content, i + 1, k + 1, guid))
  {
    assert LoadFrom(content, cur, k, guid) == LoadAt(content, start, i, k, guid);
    t := ParseBlock(content[start..i + 1], guid(k));
  }

  /** The cursor loop of `Persistence::Load`, from just after the `[` of the task list. */
  method LoadBlocks(content: string, from: nat, guid: nat -> string) returns (r: Option<seq<Task>>)
    requires from <= |content|
    ensures r == LoadFrom(content, from, 0, guid)
  {
    var out: seq<Task> := [];
    var cur := from;
    assert Then(out, LoadFrom(content, from, 0, guid)) == LoadFrom(content, from, 0, guid) by {
      match LoadFrom(content, from, 0, guid)
      case None =>
      case Some(ts) => assert out + ts == ts;
    }
    while true
      invariant cur <= |content|
      invariant LoadFrom(content, from, 0, guid) == Then(out, LoadFrom(content, cur, |out|, guid))
      decreases |content| + 1 - cur
    {
      var start := Find(content, "{", cur);
      if start.None? {
        assert out + [] == out;
        return Some(out);
      }
      var i := ScanBlock(content, start.value);
      if i >= |content| {
        assert out + [] == out;
        return Some(out);
      }
      var t := ParseFound(content, cur, start.value, i, |out|, guid);
      if t.None? {
        return None;
      }
      ThenAppend(out, t.value, LoadFrom(content, i + 1, |out| + 1, guid));
      out := out + [t.value];
      cur := i + 1;
    }
  }

  /** `Persistence::Load`: the fallbacks to an empty list, then the cursor loop. */
  method Load(file: Option<string>, guid: nat -> string) returns (r: Option<seq<Task>>)
    ensures r == LoadContent(file, guid)
  {
    if file.None? {
      return Some([]);
    }
    var content := file.value;
    var valid := IsValidJsonSimple(content);
    if !valid {
      return Some([]);
    }
    var pos := Find(content, "\"tasks\"", 0);
    if pos.None? {
      return Some([]);
    }
    pos := Find(content, "[", pos.value);
    if pos.None? {
      return Some([]);
    }
    r := LoadBlocks(content, pos.value + 1, guid);
  }

  // ---------------------------------------------------------------------------
  // Load: what the readers and the scanner promise
  // ---------------------------------------------------------------------------

  /** A one-character pattern matches exactly where that character is. */
  lemma MatchChar(s: string, c: char, p: nat)
    ensures MatchAt(s, [c], p) <==> p < |s| && s[p] == c
  {
    if MatchAt(s, [c], p) {
      assert s[p + 0] == [c][0];
    }
  }

  /** A key that does not occur gives `""` to `getString`, 0 to `getInt` and the default to the bool readers. */
  lemma MissingKey(block: string, key: string, default: bool)
    requires forall p :: !MatchAt(block, Quoted(key), p)
    ensures GetString(block, key) == ""
    ensures GetInt(block, key) == Some(0)
    ensures GetBool(block, key, default) == default
  {
    FindIsFirstMatch(block, Quoted(key), 0);
  }

  /** In a block without a quote character no key occurs. */
  lemma NoQuoteNoKey(block: string, key: string)
    requires '"' !in block
    ensures forall p :: !MatchAt(block, Quoted(key), p)
  {
    forall p: nat
      ensures !MatchAt(block, Quoted(key), p)
    {
      if p < |block| {
        assert block[p] in block;
        assert block[p + 0] != Quoted(key)[0];
      }
    }
  }

  /** Every read of a block without a quote character finds its key missing. */
  lemma KeylessReads(block: string)
    requires '"' !in block
    ensures GetStrings(block, STRING_KEYS) == ["", "", "", "", "", ""]
    ensures GetInts(block, INT_KEYS) == Some([0, 0, 0, 0, 0, 0, 0, 0, 0])
    ensures GetBool(block, "enabled", true) && GetBool(block, "runIfMissed", true)
  {
    forall j | 0 <= j < |STRING_KEYS|
      ensures GetString(block, STRING_KEYS[j]) == ""
    {
      NoQuoteNoKey(block, STRING_KEYS[j]);
      MissingKey(block, STRING_KEYS[j], true);
    }
    forall j | 0 <= j < |INT_KEYS|
      ensures GetInt(block, INT_KEYS[j]) == Some(0)
    {
      NoQuoteNoKey(block, INT_KEYS[j]);
      MissingKey(block, INT_KEYS[j], true);
    }
    NoQuoteNoKey(block, "enabled");
    MissingKey(block, "enabled", true);
    NoQuoteNoKey(block, "runIfMissed");
    MissingKey(block, "runIfMissed", true);
    GetStringsAre(block, STRING_KEYS, ["", "", "", "", "", ""]);
    GetIntsReturns(block, INT_KEYS, [0, 0, 0, 0, 0, 0, 0, 0, 0]);
  }

  /**
   * A block naming none of the keys is the default task, except that every
   * integer field is 0 (the trigger becomes ONCE, the interval 0, both times
   * 00:00:00, no weekday) and the id is the generated one.
   */
  lemma KeylessRecord(block: string, guid: string)
    requires '"' !in block
    ensures ParseRecord(block, guid) == Some(NewTask().(
      id := guid, triggerType := ONCE, intervalMinutes := 0,
      dailyHour := 0, dailyMinute := 0, dailySecond := 0,
      weeklyDays := NO_DAYS, weeklyHour := 0, weeklyMinute := 0, weeklySecond := 0))
  {
    KeylessReads(block);
    assert Unpack(0, 7) == NO_DAYS;
  }

  /** `substr(pos, n) == pat` for a pattern of length n is a match at pos. */
  lemma SubstrMatch(s: string, pat: string, pos: nat)
    requires pos <= |s|
    ensures Substr(s, pos, |pat|) == pat <==> MatchAt(s, pat, pos)
  {
    if MatchAt(s, pat, pos) {
      assert s[pos..pos + |pat|] == pat;
    }
    if Substr(s, pos, |pat|) == pat {
      assert forall j :: 0 <= j < |pat| ==> s[pos + j] == Substr(s, pos, |pat|)[j];
    }
  }

  /** Whether the first character after the colon at `c` that is not a blank starts the text `true`. */
  predicate TrueAfter(block: string, c: nat) {
    match FindFirstNotOf(block, BLANKS, c + 1)
    case None => false
    case Some(s) => MatchAt(block, "true", s)
  }

  /** The bool reader once the key and the colon after it are found. */
  lemma GetBoolAt(block: string, key: string, default: bool, p: nat, c: nat)
    requires Find(block, Quoted(key), 0) == Some(p) && Find(block, ":", p) == Some(c)
    requires c + 1 < SIZE_MODULUS
    ensures GetBool(block, key, default) == TrueAfter(block, c)
  {
    assert SizeAdd(c, 1) == c + 1;
    var first := FindFirstNotOf(block, BLANKS, c + 1);
    if first.Some? {
      SubstrMatch(block, "true", first.value);
    }
  }

  /** TrueAfter spelled out: blanks after the colon up to a `true`. */
  lemma TrueAfterMeans(block: string, c: nat)
    ensures TrueAfter(block, c) <==>
      exists s :: c < s && MatchAt(block, "true", s) && forall q :: c < q < s ==> block[q] in BLANKS
  {
    FindFirstNotOfIsFirst(block, BLANKS, c + 1);
    var first := FindFirstNotOf(block, BLANKS, c + 1);
    if TrueAfter(block, c) {
      assert c < first.value && MatchAt(block, "true", first.value);
    }
    forall s | c < s && MatchAt(block, "true", s) && forall q :: c < q < s ==> block[q] in BLANKS
      ensures TrueAfter(block, c)
    {
      FirstNonBlank(block, c, s);
    }
  }

  /** After the colon at `c`, blanks up to `s` and a `t` at `s` put the first non-blank at `s`. */
  lemma FirstNonBlank(block: string, c: nat, s: nat)
    requires c < s && MatchAt(block, "true", s) && forall q :: c < q < s ==> block[q] in BLANKS
    ensures FindFirstNotOf(block, BLANKS, c + 1) == Some(s)
  {
    assert block[s + 0] == "true"[0];
    FindFirstNotOfIsFirst(block, BLANKS, c + 1);
  }

  /**
   * The bool readers on a block where the key first occurs at `p` and the first
   * colon after it is at `c`: the field is true exactly when the first
   * character after the colon that is not a blank starts the text `true`.
   */
  lemma GetBoolMeansTrue(block: string, key: string, default: bool, p: nat, c: nat)
    requires |block| < SIZE_MODULUS
    requires MatchAt(block, Quoted(key), p) && forall q :: 0 <= q < p ==> !MatchAt(block, Quoted(key), q)
    requires p <= c && MatchAt(block, ":", c) && forall q :: p <= q < c ==> !MatchAt(block, ":", q)
    ensures GetBool(block, key, default) <==>
      exists s :: c < s && MatchAt(block, "true", s) && forall q :: c < q < s ==> block[q] in BLANKS
  {
    FindReturnsFirst(block, Quoted(key), 0, p);
    FindReturnsFirst(block, ":", p, c);
    GetBoolAt(block, key, default, p, c);
    TrueAfterMeans(block, c);
  }


  /** The line split after the key: the indentation, the opening quote and the key; then the rest. */
  lemma LineSplit(key: string, e: string)
    ensures Line(key, InQuotes(e)) == ("      \"" + key) + ("\": \"" + e + "\",\n")
  {
  }

  lemma FrontLayout(key: string)
    ensures |"      \"" + key| == 7 + |key|
    ensures forall x :: 0 <= x < 6 ==> ("      \"" + key)[x] == ' '
    ensures ("      \"" + key)[6] == '"'
    ensures forall j :: 0 <= j < |key| ==> ("      \"" + key)[7 + j] == key[j]
  {
  }

  lemma BackLayout(e: string)
    ensures |"\": \"" + e + "\",\n"| == 7 + |e|
    ensures ("\": \"" + e + "\",\n")[0] == '"'
    ensures ("\": \"" + e + "\",\n")[1] == ':'
    ensures ("\": \"" + e + "\",\n")[2] == ' '
    ensures ("\": \"" + e + "\",\n")[3] == '"'
    ensures forall j :: 0 <= j < |e| ==> ("\": \"" + e + "\",\n")[4 + j] == e[j]
    ensures ("\": \"" + e + "\",\n")[4 + |e|] == '"'
    ensures ("\": \"" + e + "\",\n")[5 + |e|] == ','
    ensures ("\": \"" + e + "\",\n")[6 + |e|] == '\n'
  {
  }

  /** Where the parts of a `"key": "value",` line sit. */
  lemma LineLayout(key: string, e: string)
    ensures |Line(key, InQuotes(e))| == 14 + |key| + |e|
    ensures forall x :: 0 <= x < 6 ==> Line(key, InQuotes(e))[x] == ' '
    ensures Line(key, InQuotes(e))[6] == '"'
    ensures forall j :: 0 <= j < |key| ==> Line(key, InQuotes(e))[7 + j] == key[j]
    ensures Line(key, InQuotes(e))[7 + |key|] == '"'
    ensures Line(key, InQuotes(e))[8 + |key|] == ':'
    ensures Line(key, InQuotes(e))[9 + |key|] == ' '
    ensures Line(key, InQuotes(e))[10 + |key|] == '"'
    ensures forall j :: 0 <= j < |e| ==> Line(key, InQuotes(e))[11 + |key| + j] == e[j]
    ensures Line(key, InQuotes(e))[11 + |key| + |e|] == '"'
    ensures Line(key, InQuotes(e))[12 + |key| + |e|] == ','
    ensures Line(key, InQuotes(e))[13 + |key| + |e|] == '\n'
  {
    var front, back := "      \"" + key, "\": \"" + e + "\",\n";
    LineSplit(key, e);
    FrontLayout(key);
    BackLayout(e);
    assert forall y :: 0 <= y < |back| ==> Line(key, InQuotes(e))[7 + |key| + y] == back[y];
  }

  /** The block holds, from `a` on, a `"key": "e",` line. */
  predicate FieldAt(block: string, a: nat, key: string, e: string) {
    && a + 14 + |key| + |e| <= |block|
    && (forall x :: a <= x < a + 6 ==> block[x] == ' ')
    && block[a + 6] == '"'
    && (forall j :: 0 <= j < |key| ==> block[a + 7 + j] == key[j])
    && block[a + 7 + |key|] == '"'
    && block[a + 8 + |key|] == ':'
    && block[a + 9 + |key|] == ' '
    && block[a + 10 + |key|] == '"'
    && (forall j :: 0 <= j < |e| ==> block[a + 11 + |key| + j] == e[j])
    && block[a + 11 + |key| + |e|] == '"'
    && block[a + 12 + |key| + |e|] == ','
    && block[a + 13 + |key| + |e|] == '\n'
  }

  lemma LineIsField(pre: string, key: string, e: string, post: string)
    ensures FieldAt(pre + Line(key, InQuotes(e)) + post, |pre|, key, e)
  {
    var line := Line(key, InQuotes(e));
    LineLayout(key, e);
    var block := pre + line + post;
    assert forall x :: 0 <= x < |line| ==> block[|pre| + x] == line[x];
  }

  /** When the quoted key occurs nowhere before the line, its first occurrence opens the line. */
  lemma FieldKeyFound(block: string, a: nat, key: string, e: string)
    requires FieldAt(block, a, key, e)
    requires forall q :: 0 <= q < a ==> !MatchAt(block, Quoted(key), q)
    ensures Find(block, Quoted(key), 0) == Some(a + 6)
  {
    forall j | 0 <= j < |Quoted(key)|
      ensures block[a + 6 + j] == Quoted(key)[j]
    {
      if 1 <= j <= |key| {
        assert block[a + 7 + (j - 1)] == key[j - 1];
      }
    }
    forall q | a <= q < a + 6
      ensures !MatchAt(block, Quoted(key), q)
    {
      assert block[q + 0] != Quoted(key)[0];
    }
    FindReturnsFirst(block, Quoted(key), 0, a + 6);
  }

  /** The first colon after the key is the line's own. */
  lemma FieldColonFound(block: string, a: nat, key: string, e: string)
    requires FieldAt(block, a, key, e) && ':' !in key
    ensures Find(block, ":", a + 6) == Some(a + 8 + |key|)
  {
    forall q | a + 6 <= q < a + 8 + |key|
      ensures !MatchAt(block, ":", q)
    {
      MatchChar(block, ':', q);
      if a + 7 <= q < a + 7 + |key| {
        assert block[a + 7 + (q - a - 7)] == key[q - a - 7] && key[q - a - 7] in key;
      }
    }
    MatchChar(block, ':', a + 8 + |key|);
    FindReturnsFirst(block, ":", a + 6, a + 8 + |key|);
  }

  /** The first two quotes after the colon enclose the value. */
  lemma FieldQuotesFound(block: string, a: nat, key: string, e: string)
    requires FieldAt(block, a, key, e) && '"' !in e
    ensures Find(block, "\"", a + 8 + |key|) == Some(a + 10 + |key|)
    ensures Find(block, "\"", a + 11 + |key|) == Some(a + 11 + |key| + |e|)
  {
    var q1 := a + 10 + |key|;
    forall q | a + 8 + |key| <= q < q1
      ensures !MatchAt(block, "\"", q)
    {
      MatchChar(block, '"', q);
    }
    MatchChar(block, '"', q1);
    FindReturnsFirst(block, "\"", a + 8 + |key|, q1);
    forall q | q1 + 1 <= q < q1 + 1 + |e|
      ensures !MatchAt(block, "\"", q)
    {
      MatchChar(block, '"', q);
      assert block[a + 11 + |key| + (q - q1 - 1)] == e[q - q1 - 1] && e[q - q1 - 1] in e;
    }
    MatchChar(block, '"', q1 + 1 + |e|);
    FindReturnsFirst(block, "\"", q1 + 1, q1 + 1 + |e|);
  }

  /** `getString` once the key, the colon and the two quotes are found: the text between the quotes, unescaped. */
  lemma FieldRead(block: string, p: nat, c: nat, q1: nat, q2: nat)
    requires Find(block, ":", p) == Some(c)
    requires Find(block, "\"", c) == Some(q1)
    requires Find(block, "\"", q1 + 1) == Some(q2) && q2 < SIZE_MODULUS
    ensures QuotedValue(block, p) == Substr(block, q1 + 1, q2 - q1 - 1)
  {
    SizeArith(q1, q2);
  }

  /** The `size_t` arithmetic of `getString` on positions that fit. */
  lemma SizeArith(q1: nat, q2: nat)
    requires q1 < q2 < SIZE_MODULUS
    ensures SizeAdd(q1, 1) == q1 + 1
    ensures SizeSub(SizeSub(q2, q1), 1) == q2 - q1 - 1
  {
  }

  /** The value of a field laid out at `a`. */
  lemma FieldValue(block: string, a: nat, key: string, e: string)
    requires FieldAt(block, a, key, e)
    ensures Substr(block, a + 11 + |key|, |e|) == e
  {
    assert block[a + 11 + |key|..a + 11 + |key| + |e|] == e;
  }

  /** Where `getString` finds things in a field laid out at `a`: the key, the colon and the two quotes of the line. */
  lemma FieldFinds(block: string, a: nat, key: string, e: string)
    requires FieldAt(block, a, key, e)
    requires forall q :: 0 <= q < a ==> !MatchAt(block, Quoted(key), q)
    requires ':' !in key && '"' !in e
    ensures var c, q1 := a + 8 + |key|, a + 10 + |key|;
      && Find(block, Quoted(key), 0) == Some(a + 6)
      && Find(block, ":", a + 6) == Some(c)
      && Find(block, "\"", c) == Some(q1)
      && Find(block, "\"", q1 + 1) == Some(q1 + 1 + |e|) && q1 + 1 + |e| < |block|
      && Substr(block, q1 + 1, |e|) == e
  {
    FieldKeyFound(block, a, key, e);
    FieldColonFound(block, a, key, e);
    FieldQuotesFound(block, a, key, e);
    FieldValue(block, a, key, e);
  }

  /** `getString` once the key, the colon and both quotes of a line at `a` are found around `e`: `e` unescaped. */
  lemma FieldReadBack(block: string, a: nat, key: string, e: string)
    requires var c, q1 := a + 8 + |key|, a + 10 + |key|;
      && Find(block, Quoted(key), 0) == Some(a + 6)
      && Find(block, ":", a + 6) == Some(c)
      && Find(block, "\"", c) == Some(q1)
      && Find(block, "\"", q1 + 1) == Some(q1 + 1 + |e|) && q1 + 1 + |e| < |block|
      && Substr(block, q1 + 1, |e|) == e
    requires |block| < SIZE_MODULUS
    ensures GetString(block, key) == Unescape(e)
  {
    FieldRead(block, a + 6, a + 8 + |key|, a + 10 + |key|, a + 11 + |key| + |e|);
    assert QuotedValue(block, a + 6) == e;
  }

  /**
   * A string field read back: a value holding no quote, written escaped
   * in a `"key": "value",` line at `a`, reads back exactly when the quoted key
   * occurs nowhere before the line (for a key holding no colon).
   */
  lemma FieldRoundTrip(block: string, a: nat, key: string, v: string)
    requires FieldAt(block, a, key, Escape(v))
    requires forall q :: 0 <= q < a ==> !MatchAt(block, Quoted(key), q)
    requires ':' !in key && '"' !in v && |block| < SIZE_MODULUS
    ensures GetString(block, key) == v
  {
    EscapeKeepsQuoteFree(v);
    FieldUnescaped(block, a, key, Escape(v));
    UnescapeEscape(v);
  }

  /** `getString` on a field laid out at `a` whose quoted key occurs nowhere before it: the value, unescaped. */
  lemma FieldUnescaped(block: string, a: nat, key: string, e: string)
    requires FieldAt(block, a, key, e)
    requires forall q :: 0 <= q < a ==> !MatchAt(block, Quoted(key), q)
    requires ':' !in key && '"' !in e && |block| < SIZE_MODULUS
    ensures GetString(block, key) == Unescape(e)
  {
    FieldFinds(block, a, key, e);
    FieldReadBack(block, a, key, e);
  }

  /** The same for a line written between the text `pre` and the text `post`. */
  lemma StringFieldRoundTrip(pre: string, key: string, v: string, post: string)
    requires ':' !in key && '"' !in v
    requires forall q :: 0 <= q < |pre| ==> !MatchAt(pre + Line(key, InQuotes(Escape(v))) + post, Quoted(key), q)
    requires |pre + Line(key, InQuotes(Escape(v))) + post| < SIZE_MODULUS
    ensures GetString(pre + Line(key, InQuotes(Escape(v))) + post, key) == v
  {
    LineIsField(pre, key, Escape(v), post);
    FieldRoundTrip(pre + Line(key, InQuotes(Escape(v))) + post, |pre|, key, v);
  }

  // ---------------------------------------------------------------------------
  // The string fields of a saved record read back
  // ---------------------------------------------------------------------------

  /** A key as Save writes them: ASCII letters only, at least one. */
  predicate IsKeyName(k: string) {
    |k| > 0 && forall i :: 0 <= i < |k| ==> 'a' <= k[i] <= 'z' || 'A' <= k[i] <= 'Z'
  }

  /**
   * No occurrence of the quoted key `k` can start in `piece`: every quote in it
   * is followed, inside the piece, by a character that differs from `"k"`.
   */
  predicate NoKeyStart(piece: string, k: string) {
    forall q :: 0 <= q < |piece| && piece[q] == '"' ==>
      exists d :: 1 <= d <= |k| + 1 && q + d < |piece| && piece[q + d] != Quoted(k)[d]
  }

  /** A piece with that property, placed in a block, starts no occurrence there. */
  lemma NoKeyStartInBlock(block: string, a: nat, piece: string, k: string)
    requires a + |piece| <= |block| && block[a..a + |piece|] == piece
    requires NoKeyStart(piece, k)
    ensures forall q :: a <= q < a + |piece| ==> !MatchAt(block, Quoted(k), q)
  {
    forall q | a <= q < a + |piece|
      ensures !MatchAt(block, Quoted(k), q)
    {
      assert block[q] == piece[q - a];
      if piece[q - a] == '"' {
        var d :| 1 <= d <= |k| + 1 && q - a + d < |piece| && piece[q - a + d] != Quoted(k)[d];
        assert block[q + d] == piece[q - a + d];
      } else {
        assert Quoted(k)[0] == '"';
      }
    }
  }

  /** The text of pieces that each start no occurrence, at the front of a block, starts none there. */
  lemma {:induction false} NoKeyStartConcat(block: string, pieces: seq<string>, k: string)
    requires |Concat(pieces)| <= |block| && block[..|Concat(pieces)|] == Concat(pieces)
    requires forall m :: 0 <= m < |pieces| ==> NoKeyStart(pieces[m], k)
    ensures forall q :: 0 <= q < |Concat(pieces)| ==> !MatchAt(block, Quoted(k), q)
  {
    if pieces != [] {
      var init, last := pieces[..|pieces| - 1], pieces[|pieces| - 1];
      assert Concat(pieces) == Concat(init) + last;
      assert block[..|Concat(init)|] == Concat(pieces)[..|Concat(init)|] == Concat(init);
      NoKeyStartConcat(block, init, k);
      assert block[|Concat(init)|..|Concat(init)| + |last|] == Concat(pieces)[|Concat(init)|..] == last;
      NoKeyStartInBlock(block, |Concat(init)|, last, k);
    }
  }

  /**
   * A quote followed by some quote-free `text` and another quote does not open
   * `"k"` when `text` is not `k`: the two differ at a character, or one ends first.
   */
  lemma MismatchAfter(piece: string, q: nat, text: string, k: string)
    requires q + 1 + |text| < |piece|
    requires forall j :: 0 <= j < |text| ==> piece[q + 1 + j] == text[j]
    requires piece[q + 1 + |text|] == '"'
    requires IsKeyName(k) && text != k && '"' !in text
    ensures exists d :: 1 <= d <= |k| + 1 && q + d < |piece| && piece[q + d] != Quoted(k)[d]
  {
    if |k| == |text| {
      var j :| 0 <= j < |k| && k[j] != text[j];
      assert piece[q + (j + 1)] == text[j] && Quoted(k)[j + 1] == k[j];
    } else if |k| < |text| {
      assert piece[q + (|k| + 1)] == text[|k|] && text[|k|] in text && Quoted(k)[|k| + 1] == '"';
    } else {
      assert piece[q + (|text| + 1)] == '"' && Quoted(k)[|text| + 1] == k[|text|];
    }
  }

  /** The quotes of a `"ki": "e",` line, for a key name `ki` and a quote-free `e`: the four around key and value. */
  lemma LineQuotes(ki: string, e: string, q: nat)
    requires IsKeyName(ki) && '"' !in e
    requires q < |Line(ki, InQuotes(e))|
    ensures Line(ki, InQuotes(e))[q] == '"' ==> q == 6 || q == 7 + |ki| || q == 10 + |ki| || q == 11 + |ki| + |e|
  {
    var line := Line(ki, InQuotes(e));
    LineLayout(ki, e);
    if 7 <= q < 7 + |ki| {
      assert line[7 + (q - 7)] == ki[q - 7];
    }
    if 11 + |ki| <= q < 11 + |ki| + |e| {
      assert line[11 + |ki| + (q - 11 - |ki|)] == e[q - 11 - |ki|] && e[q - 11 - |ki|] in e;
    }
  }

  /**
   * A `"ki": "e",` line starts no occurrence of a different quoted key `k`,
   * when the value holds no quote and is not `k` itself.
   */
  lemma FieldLineNoKeyStart(ki: string, e: string, k: string)
    requires IsKeyName(ki) && IsKeyName(k) && ki != k
    requires '"' !in e && e != k
    ensures NoKeyStart(Line(ki, InQuotes(e)), k)
  {
    var line := Line(ki, InQuotes(e));
    assert '"' !in ki by {
      forall j | 0 <= j < |ki|
        ensures ki[j] != '"'
      {
      }
    }
    forall q | 0 <= q < |line| && line[q] == '"'
      ensures exists d :: 1 <= d <= |k| + 1 && q + d < |line| && line[q + d] != Quoted(k)[d]
    {
      LineQuotes(ki, e, q);
      QuoteMismatch(ki, e, k, q);
    }
  }

  /** One of the four quotes of a `"ki": "e",` line, and a character after it that differs from `"k"`. */
  lemma QuoteMismatch(ki: string, e: string, k: string, q: nat)
    requires IsKeyName(ki) && IsKeyName(k) && ki != k
    requires '"' !in e && e != k && '"' !in ki
    requires q == 6 || q == 7 + |ki| || q == 10 + |ki| || q == 11 + |ki| + |e|
    ensures var line := Line(ki, InQuotes(e));
      exists d :: 1 <= d <= |k| + 1 && q + d < |line| && line[q + d] != Quoted(k)[d]
  {
    var line := Line(ki, InQuotes(e));
    LineLayout(ki, e);
    if q == 6 {
      MismatchAfter(line, q, ki, k);
    } else if q == 10 + |ki| {
      MismatchAfter(line, q, e, k);
    } else {
      assert line[q + 1] != Quoted(k)[1];
    }
  }

  /** An escaped value equal to a key name is that key name: escaping only ever adds backslashes. */
  lemma EscapedKeyName(v: string, k: string)
    requires IsKeyName(k) && Escape(v) == k
    ensures v == k
  {
    forall i | 0 <= i < |k|
      ensures k[i] != '\\'
    {
    }
    EscapeWithoutBackslash(v);
  }

  /** The text of two lists of pieces is the text of the first followed by the text of the second. */
  lemma {:induction false} ConcatAppend(a: seq<string>, b: seq<string>)
    ensures Concat(a + b) == Concat(a) + Concat(b)
    decreases |b|
  {
    if b == [] {
      assert a + b == a;
    } else {
      var init, x := b[..|b| - 1], b[|b| - 1];
      assert (a + b)[..|a + b| - 1] == a + init && (a + b)[|a + b| - 1] == x;
      assert Concat(a + b) == Concat(a + init) + x;
      ConcatAppend(a, init);
      AppendAssoc(Concat(a), Concat(init), x);
    }
  }

  /** The six string fields of a task, in the order of `STRING_KEYS`. */
  function StringFields(t: Task): (r: seq<string>)
    ensures |r| == |STRING_KEYS|
  {
    [t.id, t.name, t.description, t.exePath, t.arguments, t.workingDirectory]
  }

  lemma ConcatSingle(x: string)
    ensures Concat([x]) == x
  {
    assert [x][..0] == [];
  }

  lemma SplitAround(pieces: seq<string>, m: nat)
    requires m < |pieces|
    ensures pieces == (pieces[..m] + [pieces[m]]) + pieces[m + 1..]
  {
  }

  /** The text of a list of pieces, split around its `m`-th piece. */
  lemma ConcatAround(pieces: seq<string>, m: nat)
    requires m < |pieces|
    ensures Concat(pieces) == Concat(pieces[..m]) + pieces[m] + Concat(pieces[m + 1..])
  {
    var front, back := pieces[..m], pieces[m + 1..];
    SplitAround(pieces, m);
    ConcatAppend(front + [pieces[m]], back);
    ConcatAppend(front, [pieces[m]]);
    ConcatSingle(pieces[m]);
  }

  /** The opening lines of a record, for six values: the brace, then value `n - 1` under key `n - 1`. */
  lemma StringLineAt(vals: seq<string>, n: nat)
    requires |vals| == |STRING_KEYS| && 1 <= n <= |STRING_KEYS|
    ensures StringLines(vals[0], vals[1], vals[2], vals[3], vals[4], vals[5])[0] == "    {\n"
    ensures StringLines(vals[0], vals[1], vals[2], vals[3], vals[4], vals[5])[n]
         == Line(STRING_KEYS[n - 1], InQuotes(vals[n - 1]))
  {
    if n == 1 {
    } else if n == 2 {
    } else if n == 3 {
    } else if n == 4 {
    } else if n == 5 {
    } else {
      assert n == 6;
    }
  }

  /** Line `n` of a record, for `n` from 1 to 6, is string field `n - 1`; line 0 opens the record. */
  lemma RecordStringLine(t: Task, more: bool, n: nat)
    requires 1 <= n <= |STRING_KEYS|
    ensures RecordLines(t, more)[0] == "    {\n"
    ensures RecordLines(t, more)[n] == Line(STRING_KEYS[n - 1], InQuotes(Escape(StringFields(t)[n - 1])))
  {
    var vals := seq(6, i requires 0 <= i < 6 => Escape(StringFields(t)[i]));
    assert vals[0] == Escape(t.id) && vals[1] == Escape(t.name) && vals[2] == Escape(t.description);
    assert vals[3] == Escape(t.exePath) && vals[4] == Escape(t.arguments) && vals[5] == Escape(t.workingDirectory);
    StringLineAt(vals, n);
    var front := StringLines(vals[0], vals[1], vals[2], vals[3], vals[4], vals[5]);
    assert RecordLines(t, more) == (front + ValueLines(t, Pack(t.weeklyDays))) + [RecordClose(more)];
    assert RecordLines(t, more)[0] == front[0] && RecordLines(t, more)[n] == front[n];
  }

  /**
   * In any list of lines, a `"key": "value",` line reads back when the lines
   * before it start no occurrence of the quoted key.
   */
  lemma LinesStringField(lines: seq<string>, j: nat, key: string, v: string)
    requires j < |lines| && lines[j] == Line(key, InQuotes(Escape(v)))
    requires forall m :: 0 <= m < j ==> NoKeyStart(lines[m], key)
    requires ':' !in key && '"' !in v
    requires |Concat(lines)| < SIZE_MODULUS
    ensures GetString(Concat(lines), key) == v
  {
    ConcatAround(lines, j);
    FrontClear(lines, j, key);
    StringFieldRoundTrip(Concat(lines[..j]), key, v, Concat(lines[j + 1..]));
  }

  /** Lines that each start no occurrence of the quoted key start none in the text of all the lines. */
  lemma FrontClear(lines: seq<string>, j: nat, key: string)
    requires j < |lines|
    requires forall m :: 0 <= m < j ==> NoKeyStart(lines[m], key)
    ensures forall q :: 0 <= q < |Concat(lines[..j])| ==> !MatchAt(Concat(lines), Quoted(key), q)
  {
    ConcatAround(lines, j);
    var before := lines[..j];
    assert Concat(lines)[..|Concat(before)|] == Concat(before);
    assert forall m :: 0 <= m < |before| ==> before[m] == lines[m];
    NoKeyStartConcat(Concat(lines), before, key);
  }

  /** The line of a quote-free value other than `key`, under another key name, starts no occurrence of `"key"`. */
  lemma EarlierLineClear(ki: string, vi: string, key: string)
    requires IsKeyName(ki) && IsKeyName(key) && |ki| != |key|
    requires '"' !in vi && vi != key
    ensures NoKeyStart(Line(ki, InQuotes(Escape(vi))), key)
  {
    EscapeKeepsQuoteFree(vi);
    if Escape(vi) == key {
      EscapedKeyName(vi, key);
    }
    FieldLineNoKeyStart(ki, Escape(vi), key);
  }

  /** The six string keys are key names without a colon, of six different lengths. */
  lemma StringKeyNames(i: nat)
    requires i < |STRING_KEYS|
    ensures IsKeyName(STRING_KEYS[i]) && ':' !in STRING_KEYS[i]
    ensures forall j :: 0 <= j < |STRING_KEYS| && j != i ==> |STRING_KEYS[j]| != |STRING_KEYS[i]|
  {
    if i == 0 {
    } else if i == 1 {
    } else if i == 2 {
    } else if i == 3 {
    } else if i == 4 {
    } else {
      assert i == 5;
    }
  }

  /**
   * Line `m` of a record, up to the line of string field `j`, starts no
   * occurrence of field `j`'s quoted key, when the fields before `j` hold no
   * quote and none of them equals that key.
   */
  lemma RecordLineClear(t: Task, more: bool, m: nat, j: nat)
    requires m <= j < |STRING_KEYS|
    requires forall i :: 0 <= i < j ==> '"' !in StringFields(t)[i]
    requires forall i :: 0 <= i < j ==> StringFields(t)[i] != STRING_KEYS[j]
    ensures NoKeyStart(RecordLines(t, more)[m], STRING_KEYS[j])
  {
    if m > 0 {
      RecordStringLine(t, more, m);
      StringKeyNames(m - 1);
      StringKeyNames(j);
      EarlierLineClear(STRING_KEYS[m - 1], StringFields(t)[m - 1], STRING_KEYS[j]);
    } else {
      RecordStringLine(t, more, 1);
    }
  }

  /**
   * Each string field of a saved record reads back as written, provided it
   * holds no quote, and the fields before it hold no quote and none of them
   * equals the key being read (for `id` that is no condition beyond its own).
   */
  lemma RecordStringField(t: Task, more: bool, j: nat)
    requires j < |STRING_KEYS|
    requires forall i :: 0 <= i <= j ==> '"' !in StringFields(t)[i]
    requires forall i :: 0 <= i < j ==> StringFields(t)[i] != STRING_KEYS[j]
    requires |RecordText(t, more)| < SIZE_MODULUS
    ensures GetString(RecordText(t, more), STRING_KEYS[j]) == StringFields(t)[j]
  {
    var lines := RecordLines(t, more);
    forall m | 0 <= m < j + 1
      ensures NoKeyStart(lines[m], STRING_KEYS[j])
    {
      RecordLineClear(t, more, m, j);
    }
    RecordStringLine(t, more, j + 1);
    StringKeyNames(j);
    LinesStringField(lines, j + 1, STRING_KEYS[j], StringFields(t)[j]);
  }

  /** All six string fields of a saved record read back, under the conditions of each. */
  lemma RecordStringsReadBack(t: Task, more: bool)
    requires forall i :: 0 <= i < |STRING_KEYS| ==> '"' !in StringFields(t)[i]
    requires forall i, j :: 0 <= i < j < |STRING_KEYS| ==> StringFields(t)[i] != STRING_KEYS[j]
    requires |RecordText(t, more)| < SIZE_MODULUS
    ensures GetStrings(RecordText(t, more), STRING_KEYS) == StringFields(t)
  {
    forall j | 0 <= j < |STRING_KEYS|
      ensures StringFields(t)[j] == GetString(RecordText(t, more), STRING_KEYS[j])
    {
      RecordStringField(t, more, j);
    }
    GetStringsAre(RecordText(t, more), STRING_KEYS, StringFields(t));
  }

  /** The id of a parsed record: the one the block names, or the generated one when that is empty. */
  lemma ParsedId(block: string, guid: string)
    ensures ParseRecord(block, guid).Some? && GetString(block, "id") != "" ==>
      ParseRecord(block, guid).value.id == GetString(block, "id")
    ensures ParseRecord(block, guid).Some? && GetString(block, "id") == "" ==>
      ParseRecord(block, guid).value.id == guid
  {
    assert GetStrings(block, STRING_KEYS)[0] == GetString(block, "id");
  }

  /** A record parsed with a non-empty generated id has a non-empty id. */
  lemma ParsedIdNonEmpty(block: string, guid: string)
    requires guid != ""
    ensures ParseRecord(block, guid).Some? ==> ParseRecord(block, guid).value.id != ""
  {
  }

  /** All tasks of a scan result have a non-empty id. */
  predicate IdsNonEmpty(r: Option<seq<Task>>) {
    r.Some? ==> forall t :: t in r.value ==> t.id != ""
  }

  lemma PrependIds(t: Option<Task>, rest: Option<seq<Task>>)
    requires t.Some? ==> t.value.id != ""
    requires IdsNonEmpty(rest)
    ensures IdsNonEmpty(Prepend(t, rest))
  {
  }

  /** Every task Load returns has a non-empty id, given that every generated id is non-empty. */
  lemma {:induction false} LoadedIdsNonEmpty(content: string, cur: nat, k: nat, guid: nat -> string)
    requires forall j :: guid(j) != ""
    ensures IdsNonEmpty(LoadFrom(content, cur, k, guid))
    decreases |content| + 1 - cur, 2
  {
    match Find(content, "{", cur)
    case None =>
    case Some(start) =>
      var i := BlockEnd(content, start + 1, IN_BLOCK);
      if i < |content| {
        assert LoadFrom(content, cur, k, guid) == LoadAt(content, start, i, k, guid);
        LoadAtIds(content, start, i, k, guid);
      }
  }

  lemma {:induction false} LoadAtIds(content: string, start: nat, i: nat, k: nat, guid: nat -> string)
    requires start <= i < |content|
    requires forall j :: guid(j) != ""
    ensures IdsNonEmpty(LoadAt(content, start, i, k, guid))
    decreases |content| + 1 - i, 1
  {
    ParsedIdNonEmpty(content[start..i + 1], guid(k));
    LoadedIdsNonEmpty(content, i + 1, k + 1, guid);
    PrependIds(ParseRecord(content[start..i + 1], guid(k)), LoadFrom(content, i + 1, k + 1, guid));
  }

  /** The same for the whole file. */
  lemma LoadContentIdsNonEmpty(file: Option<string>, guid: nat -> string)
    requires forall j :: guid(j) != ""
    ensures IdsNonEmpty(LoadContent(file, guid))
  {
    if file.Some? && Balanced(file.value) {
      var content := file.value;
      match Find(content, "\"tasks\"", 0)
      case None =>
      case Some(pos) =>
        match Find(content, "[", pos)
        case None =>
        case Some(pos2) => LoadedIdsNonEmpty(content, pos2 + 1, 0, guid);
    }
  }

  /** A missing file, one failing the balance check, or one without `"tasks"` and a `[` after it loads as no tasks. */
  lemma LoadFallbacks(file: Option<string>, guid: nat -> string)
    ensures file.None? ==> LoadContent(file, guid) == Some([])
    ensures file.Some? && !Balanced(file.value) ==> LoadContent(file, guid) == Some([])
    ensures file.Some? && (forall p :: !MatchAt(file.value, "\"tasks\"", p)) ==> LoadContent(file, guid) == Some([])
    ensures file.Some? && Balanced(file.value) && Find(file.value, "\"tasks\"", 0).Some?
      && (forall p :: Find(file.value, "\"tasks\"", 0).value <= p ==> !MatchAt(file.value, "[", p))
      ==> LoadContent(file, guid) == Some([])
  {
    if file.Some? {
      FindIsFirstMatch(file.value, "\"tasks\"", 0);
      var pos := Find(file.value, "\"tasks\"", 0);
      if pos.Some? {
        FindIsFirstMatch(file.value, "[", pos.value);
      }
    }
  }

  /** The scan for a block's end, started inside the block, stops only at a closing brace. */
  lemma {:induction false} BlockEndIsClosingBrace(content: string, i: nat, st: ScanState)
    requires st.depth >= 1
    ensures BlockEnd(content, i, st) < |content| ==> content[BlockEnd(content, i, st)] == '}'
    decreases |content| - i
  {
    if i < |content| {
      var next := ScanStep(st, content[i]);
      if !(!st.escape && content[i] != '\\' && !next.inQuotes && next.depth == 0) {
        BlockEndIsClosingBrace(content, i + 1, next);
      }
    }
  }

  /** A block that never closes ends the scan: the result is the records read before it. */
  lemma UnterminatedBlock(content: string, cur: nat, k: nat, guid: nat -> string, start: nat, out: seq<Task>)
    requires Find(content, "{", cur) == Some(start)
    requires BlockEnd(content, start + 1, IN_BLOCK) == |content|
    ensures Then(out, LoadFrom(content, cur, k, guid)) == Some(out)
  {
    assert out + [] == out;
  }
}
