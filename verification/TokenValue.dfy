/** The value stored under a refresh-token key, as text (src/auth/refresh-token.service.ts:71-74),
    and the three readers of it: the JavaScript split, and the Lua patterns '^(.-):' , '|used$' and
    '|active$'. */
module TokenValue {
  import opened Wrappers

  datatype Record = Record(kind: string, principal: string, family: string, active: bool)

  function Print(r: Record): string {
    r.kind + ":" + r.principal + "|" + r.family + "|" + if r.active then "active" else "used"
  }

  /** Kinds and principals as the program issues them; family ids are hexadecimal. */
  predicate Printable(r: Record) {
    && ':' !in r.kind && '|' !in r.kind
    && '|' !in r.principal
    && '|' !in r.family
  }

  // ---------- Text operations ----------

  /** The text before the first `c`: Lua's match of '^(.-)c', None for no match. */
  function Before(s: string, c: char): Option<string> {
    if s == "" then None
    else if s[0] == c then Some("")
    else
      match Before(s[1..], c)
      case None => None
      case Some(head) => Some([s[0]] + head)
  }

  /** JavaScript's s.split(c). Never empty. */
  function Split(s: string, c: char): (parts: seq<string>)
    ensures |parts| > 0
  {
    if s == "" then [""]
    else
      var rest := Split(s[1..], c);
      if s[0] == c then [""] + rest else [[s[0]] + rest[0]] + rest[1..]
  }

  /** JavaScript's s.indexOf(c), -1 if absent. */
  function IndexOf(s: string, c: char): (i: int)
    ensures -1 <= i < |s|
  {
    if s == "" then -1
    else if s[0] == c then 0
    else
      var i := IndexOf(s[1..], c);
      if i < 0 then -1 else i + 1
  }

  predicate EndsWith(s: string, suffix: string) {
    |suffix| <= |s| && s[|s| - |suffix|..] == suffix
  }

  /** gsub(v, '|active$', '|used'): the anchored pattern can match once. */
  function MarkUsed(v: string): string {
    if EndsWith(v, "|active") then v[..|v| - 7] + "|used" else v
  }

  /** What the rotation script decides from the stored text: the status code, and the new text for
      code 1. Expected kind "" skips the kind check. */
  function Inspect(value: Option<string>, expectedKind: string): (nat, string) {
    if value.None? then (0, "")
    else
      var v := value.value;
      if expectedKind != "" && Before(v, ':') != Some(expectedKind) then (3, v)
      else if EndsWith(v, "|used") then (2, v)
      else (1, MarkUsed(v))
  }

  /** The fields rotate and revoke take out of the text after the script returned. */
  function HeadKind(v: string): string {
    var head := Split(v, '|')[0];
    var sep := IndexOf(head, ':');
    // slice(0, -1) drops the last character, slice(0) keeps everything
    if sep >= 0 then head[..sep] else if head == "" then "" else head[..|head| - 1]
  }

  function HeadPrincipal(v: string): string {
    var head := Split(v, '|')[0];
    head[IndexOf(head, ':') + 1..]
  }

  function FamilyField(v: string): Option<string> {
    var parts := Split(v, '|');
    if |parts| > 1 then Some(parts[1]) else None
  }

  // ---------- They agree with the printer ----------

  lemma {:induction false} BeforeFirst(a: string, c: char, b: string)
    requires c !in a
    ensures Before(a + [c] + b, c) == Some(a)
  {
    if a == "" {
      assert ("" + [c] + b)[0] == c;
    } else {
      BeforeFirst(a[1..], c, b);
      assert (a + [c] + b)[1..] == a[1..] + [c] + b;
      assert [a[0]] + a[1..] == a;
    }
  }

  lemma {:induction false} IndexOfFirst(a: string, c: char, b: string)
    requires c !in a
    ensures IndexOf(a + [c] + b, c) == |a|
  {
    if a == "" {
      assert ("" + [c] + b)[0] == c;
    } else {
      IndexOfFirst(a[1..], c, b);
      assert (a + [c] + b)[1..] == a[1..] + [c] + b;
    }
  }

  lemma {:induction false} SplitFirst(a: string, c: char, b: string)
    requires c !in a
    ensures Split(a + [c] + b, c) == [a] + Split(b, c)
  {
    if a == "" {
      assert "" + [c] + b == [c] + b && ([c] + b)[1..] == b;
    } else {
      SplitFirst(a[1..], c, b);
      assert (a + [c] + b)[1..] == a[1..] + [c] + b;
      assert [a[0]] + a[1..] == a;
    }
  }

  lemma {:induction false} SplitWhole(a: string, c: char)
    requires c !in a
    ensures Split(a, c) == [a]
  {
    if a != "" {
      SplitWhole(a[1..], c);
      assert [a[0]] + a[1..] == a;
    }
  }

  lemma {:induction false} FirstPartHasNoSeparator(s: string, c: char)
    ensures c !in Split(s, c)[0]
  {
    if s != "" {
      FirstPartHasNoSeparator(s[1..], c);
    }
  }

  function Status(r: Record): string {
    if r.active then "active" else "used"
  }

  lemma PrintedParts(r: Record)
    requires Printable(r)
    ensures Split(Print(r), '|') == [r.kind + ":" + r.principal, r.family, Status(r)]
  {
    var head := r.kind + ":" + r.principal;
    assert Print(r) == head + ['|'] + (r.family + ['|'] + Status(r));
    SplitFirst(head, '|', r.family + ['|'] + Status(r));
    SplitFirst(r.family, '|', Status(r));
    SplitWhole(Status(r), '|');
  }

  /** Splitting a printed value gives back every field, a colon inside the principal included. */
  lemma ParsingReturnsTheFields(r: Record)
    requires Printable(r)
    ensures HeadKind(Print(r)) == r.kind
    ensures HeadPrincipal(Print(r)) == r.principal
    ensures FamilyField(Print(r)) == Some(r.family)
  {
    PrintedParts(r);
    var head := r.kind + ":" + r.principal;
    IndexOfFirst(r.kind, ':', r.principal);
    assert head == r.kind + [':'] + r.principal;
  }

  /** A bar in kind or principal is exactly what breaks the first field. */
  lemma HeadSurvivesExactlyWithoutBars(r: Record)
    ensures Split(Print(r), '|')[0] == r.kind + ":" + r.principal <==> '|' !in r.kind && '|' !in r.principal
  {
    var head := r.kind + ":" + r.principal;
    var tail := r.family + "|" + Status(r);
    assert Print(r) == head + ['|'] + tail;
    FirstPartHasNoSeparator(Print(r), '|');
    if '|' !in head {
      SplitFirst(head, '|', tail);
    }
  }

  /** Lua's shortest match before a colon is the kind the JavaScript slice sees. */
  lemma LuaKindIsTheKind(r: Record)
    requires Printable(r)
    ensures Before(Print(r), ':') == Some(r.kind)
  {
    BeforeFirst(r.kind, ':', r.principal + "|" + r.family + "|" + Status(r));
    assert Print(r) == r.kind + [':'] + (r.principal + "|" + r.family + "|" + Status(r));
  }

  lemma UsedMarkIsTheStatus(r: Record)
    ensures EndsWith(Print(r), "|used") <==> !r.active
    ensures r.active ==> MarkUsed(Print(r)) == Print(r.(active := false))
  {
    var front := r.kind + ":" + r.principal + "|" + r.family;
    assert Print(r) == front + ("|" + Status(r));
    if r.active {
      assert Print(r) == front + "|active";
      assert Print(r)[|Print(r)| - 7..] == "|active";
      assert Print(r)[..|Print(r)| - 7] == front;
      assert Print(r)[|Print(r)| - 1] == 'e';
      assert Print(r.(active := false)) == front + "|used";
      assert "|used"[4] == 'd';
    } else {
      assert Print(r) == front + "|used";
      assert Print(r)[|Print(r)| - 5..] == "|used";
    }
  }

  /** The script, run on the text of a record, decides as the record says: 3 for another kind, 2 for
      a used one, and otherwise 1 with the text of the same record marked used. */
  lemma InspectReadsTheRecord(r: Record, expectedKind: string)
    requires Printable(r)
    ensures Inspect(Some(Print(r)), expectedKind) ==
            if expectedKind != "" && expectedKind != r.kind then (3, Print(r))
            else if !r.active then (2, Print(r))
            else (1, Print(r.(active := false)))
  {
    LuaKindIsTheKind(r);
    UsedMarkIsTheStatus(r);
  }

  /** Printable records with the same text are the same record. */
  lemma PrintIsInjective(a: Record, b: Record)
    requires Printable(a) && Printable(b) && Print(a) == Print(b)
    ensures a == b
  {
    ParsingReturnsTheFields(a);
    ParsingReturnsTheFields(b);
    UsedMarkIsTheStatus(a);
    UsedMarkIsTheStatus(b);
  }
}
