/**
 The content catalog (Rust source) and the id ledger (Markdown) that the Labs extend: `next_item_id`,
 `const_name`, `raw_id`, `insert_catalog`, `insert_ledger` and `catalog_content_id` of
 `tools/item_lab/server.py`. Both texts are sequences of typed lines.
 */
module Catalog {
  import opened Basics
  import opened Names

  // Catalog lines.

  datatype Line =
    | Const(name: string, digits: string)        // pub const NAME: ContentId = ContentId::from_raw(DIGITS);
    | Arm(tag: string, constant: string)       // "LABEL" => CONSTANT,
    | Reverse(constant: string, tag: string)   // CONSTANT => "LABEL",
    | Kind(constant: string)                     // an entry of a kind test, `CONSTANT,`
    | KindEnd                                    // the `] {` that closes such a list
    | Other(words: set<string>, quoted: set<string>, ids: set<nat>)

  /** Ledger lines: an allocation row, or prose with the numbers it quotes in backticks. */
  datatype Entry = Row(id: nat, tag: string, status: string) | Prose(ids: set<nat>)

  datatype Error = Exhausted | EmptyName | ConstantExists | LabelExists | MissingBlock | LedgerIdExists

  datatype Result<+T> = Ok(value: T) | Err(error: Error)

  const ITEM_MIN := 30_000
  const ITEM_MAX := 39_999

  // Numerals.

  function Digit(c: char): nat { if '0' <= c <= '9' then (c as int - '0' as int) as nat else 0 }

  /** `int(text.replace("_", ""))` on a text of digits and underscores. */
  function ParseRaw(digits: string): nat {
    if digits == "" then 0
    else
      var n := |digits| - 1;
      if digits[n] == '_' then ParseRaw(digits[..n]) else 10 * ParseRaw(digits[..n]) + Digit(digits[n])
  }

  function ThreeDigits(n: nat): string
    requires n < 1000
  {
    ['0' + (n / 100) as char, '0' + (n / 10 % 10) as char, '0' + (n % 10) as char]
  }

  /** `raw_id`. */
  function RawId(id: nat): string { Decimal(id / 1000) + "_" + ThreeDigits(id % 1000) }

  lemma {:induction false} ParseDecimal(n: nat)
    ensures ParseRaw(Decimal(n)) == n
  {
    var d := Decimal(n);
    if n >= 10 {
      ParseDecimal(n / 10);
      assert d[..|d| - 1] == Decimal(n / 10);
    } else {
      assert d[..0] == "";
    }
  }

  /** The numeral written for an id reads back as the id. */
  lemma RawIdReadsBack(id: nat)
    ensures ParseRaw(RawId(id)) == id
  {
    var high, t := Decimal(id / 1000), ThreeDigits(id % 1000);
    ParseDecimal(id / 1000);
    ParseAppend(high, '_');
    ParseThree(high + "_", t[0], t[1], t[2]);
    assert high + "_" + [t[0], t[1], t[2]] == RawId(id);
    ThreeDigitsRead(id % 1000);
  }

  lemma ThreeDigitsRead(n: nat)
    requires n < 1000
    ensures var t := ThreeDigits(n);
      t[0] != '_' && t[1] != '_' && t[2] != '_' && 100 * Digit(t[0]) + 10 * Digit(t[1]) + Digit(t[2]) == n
  {
  }

  lemma ParseThree(text: string, a: char, b: char, c: char)
    ensures a != '_' && b != '_' && c != '_' ==>
      ParseRaw(text + [a, b, c]) == 1000 * ParseRaw(text) + 100 * Digit(a) + 10 * Digit(b) + Digit(c)
  {
    ParseAppend(text, a);
    ParseAppend(text + [a], b);
    ParseAppend(text + [a] + [b], c);
    assert text + [a] + [b] + [c] == text + [a, b, c];
  }

  lemma ParseAppend(text: string, c: char)
    ensures ParseRaw(text + [c]) == if c == '_' then ParseRaw(text) else 10 * ParseRaw(text) + Digit(c)
  {
    assert (text + [c])[..|text|] == text;
  }

  // Constant names.

  predicate Alphanumeric(c: char) { 'a' <= c <= 'z' || 'A' <= c <= 'Z' || '0' <= c <= '9' }

  function Upper(c: char): char { if 'a' <= c <= 'z' then c - 'a' + 'A' else c }

  /** `re.sub("[^A-Za-z0-9]+", "_", s)`: every run of other characters becomes one underscore. */
  function Collapse(s: string): string {
    if s == "" then ""
    else
      var n := |s| - 1;
      if Alphanumeric(s[n]) then Collapse(s[..n]) + [s[n]]
      else if n > 0 && !Alphanumeric(s[n - 1]) then Collapse(s[..n])
      else Collapse(s[..n]) + "_"
  }

  function StripLeft(s: string): string { if s != "" && s[0] == '_' then StripLeft(s[1..]) else s }

  function StripRight(s: string): string { if s != "" && s[|s| - 1] == '_' then StripRight(s[..|s| - 1]) else s }

  function UpperAll(s: string): string { seq(|s|, i requires 0 <= i < |s| => Upper(s[i])) }

  function RemovePrefix(s: string, prefix: string): string { if prefix <= s then s[|prefix|..] else s }

  /** `const_name`. */
  function ConstName(tag: string): Result<string> {
    var name := "ITEM_" + UpperAll(StripLeft(StripRight(Collapse(RemovePrefix(tag, "item.")))));
    if name == "ITEM_" then Err(EmptyName) else Ok(name)
  }

  predicate WordChar(c: char) { 'A' <= c <= 'Z' || '0' <= c <= '9' || c == '_' }

  /** `ITEM_[A-Z0-9_]+` */
  predicate ItemConstant(name: string) {
    "ITEM_" <= name && |name| > 5 && forall i :: 5 <= i < |name| ==> WordChar(name[i])
  }

  predicate NameChars(s: string) { forall i :: 0 <= i < |s| ==> Alphanumeric(s[i]) || s[i] == '_' }

  lemma {:induction false} CollapseChars(s: string)
    ensures NameChars(Collapse(s))
  {
    if s != "" { CollapseChars(s[..|s| - 1]); }
  }

  lemma {:induction false} StripChars(s: string)
    requires NameChars(s)
    ensures NameChars(StripLeft(s)) && NameChars(StripRight(s))
    decreases |s|
  {
    if s != "" {
      StripChars(s[1..]);
      StripChars(s[..|s| - 1]);
    }
  }

  /** The constant made from any label has the form that the catalog's patterns look for. */
  lemma ConstNameForm(tag: string)
    ensures ConstName(tag).Ok? ==> ItemConstant(ConstName(tag).value)
  {
    var collapsed := Collapse(RemovePrefix(tag, "item."));
    CollapseChars(RemovePrefix(tag, "item."));
    StripChars(collapsed);
    StripChars(StripRight(collapsed));
    var body := UpperAll(StripLeft(StripRight(collapsed)));
    var name := "ITEM_" + body;
    forall i | 5 <= i < |name| ensures WordChar(name[i]) {
      assert name[i] == body[i - 5];
    }
  }

  // Reading the catalog.

  /** A whole-word match of the constant somewhere in the line. */
  predicate Mentions(line: Line, word: string) {
    match line
    case Const(name, _) => name == word
    case Arm(_, c) => c == word
    case Reverse(c, _) => c == word
    case Kind(c) => c == word
    case KindEnd => false
    case Other(words, _, _) => word in words
  }

  predicate Quotes(line: Line, tag: string) {
    match line
    case Arm(l, _) => l == tag
    case Reverse(_, l) => l == tag
    case Other(_, quoted, _) => tag in quoted
    case _ => false
  }

  /** The first match arm for the label that names an item constant. */
  function FindArm(catalog: seq<Line>, tag: string): Option<string> {
    if catalog == [] then None
    else
      var line := catalog[0];
      if line.Arm? && line.tag == tag && ItemConstant(line.constant) then Some(line.constant)
      else FindArm(catalog[1..], tag)
  }

  function FindConst(catalog: seq<Line>, name: string): Option<nat> {
    if catalog == [] then None
    else
      var line := catalog[0];
      if line.Const? && line.name == name then Some(ParseRaw(line.digits)) else FindConst(catalog[1..], name)
  }

  datatype Lookup = NotRegistered | ConstantMissing(constant: string) | Registered(id: nat)

  /** `catalog_content_id`; a registered label whose constant is missing is an error there. */
  function ContentIdOf(catalog: seq<Line>, tag: string): Lookup {
    var arm := FindArm(catalog, tag);
    if arm.None? then NotRegistered
    else
      var id := FindConst(catalog, arm.value);
      if id.None? then ConstantMissing(arm.value) else Registered(id.value)
  }

  lemma {:induction false} FindArmConcat(a: seq<Line>, b: seq<Line>, tag: string)
    ensures FindArm(a + b, tag) == if FindArm(a, tag).Some? then FindArm(a, tag) else FindArm(b, tag)
  {
    if a == [] {
      assert a + b == b;
    } else {
      assert (a + b)[1..] == a[1..] + b;
      FindArmConcat(a[1..], b, tag);
    }
  }

  lemma {:induction false} FindConstConcat(a: seq<Line>, b: seq<Line>, name: string)
    ensures FindConst(a + b, name) == if FindConst(a, name).Some? then FindConst(a, name) else FindConst(b, name)
  {
    if a == [] {
      assert a + b == b;
    } else {
      assert (a + b)[1..] == a[1..] + b;
      FindConstConcat(a[1..], b, name);
    }
  }

  // Ids in use.

  function LineIds(line: Line): set<nat> {
    match line
    case Const(_, digits) => {ParseRaw(digits)}
    case Other(_, _, ids) => ids
    case _ => {}
  }

  function CatalogIds(catalog: seq<Line>): set<nat> {
    if catalog == [] then {} else LineIds(catalog[0]) + CatalogIds(catalog[1..])
  }

  function EntryIds(e: Entry): set<nat> {
    match e
    case Row(id, _, _) => {id}
    case Prose(ids) => ids
  }

  function LedgerIds(ledger: seq<Entry>): set<nat> {
    if ledger == [] then {} else EntryIds(ledger[0]) + LedgerIds(ledger[1..])
  }

  /** `next_item_id`: the least id of the item range that neither text uses. */
  method NextItemId(catalog: seq<Line>, ledger: seq<Entry>) returns (r: Result<nat>)
    ensures r == NextFree(CatalogIds(catalog) + LedgerIds(ledger), ITEM_MIN)
  {
    var used := CatalogIds(catalog) + LedgerIds(ledger);
    var candidate := ITEM_MIN;
    while candidate in used
      invariant ITEM_MIN <= candidate <= ITEM_MAX
      invariant NextFree(used, ITEM_MIN) == NextFree(used, candidate)
      decreases ITEM_MAX - candidate
    {
      candidate := candidate + 1;
      if candidate > ITEM_MAX { return Err(Exhausted); }
    }
    r := Ok(candidate);
  }

  function NextFree(used: set<nat>, from: nat): (r: Result<nat>)
    ensures r.Ok? ==> from <= r.value <= ITEM_MAX && r.value !in used && forall n :: from <= n < r.value ==> n in used
    ensures r.Err? ==> r.error == Exhausted && forall n :: from <= n <= ITEM_MAX ==> n in used
    decreases ITEM_MAX - from
  {
    if from > ITEM_MAX then Err(Exhausted)
    else if from in used then NextFree(used, from + 1)
    else Ok(from)
  }

  // Inserting.

  /** The index just behind the last line that satisfies `p`; 0 when there is none. */
  function BehindLast<T>(lines: seq<T>, p: T -> bool): (k: nat)
    ensures k <= |lines| && (k > 0 ==> p(lines[k - 1])) && forall i :: k <= i < |lines| ==> !p(lines[i])
  {
    if lines == [] then 0
    else if p(lines[|lines| - 1]) then |lines|
    else BehindLast(lines[..|lines| - 1], p)
  }

  function InsertAt<T>(lines: seq<T>, k: nat, line: T): seq<T>
    requires k <= |lines|
  {
    lines[..k] + [line] + lines[k..]
  }

  /** `_insert_after` the last match; no match is an error. */
  function InsertAfterLast<T(==)>(lines: seq<T>, p: T -> bool, line: T): Option<seq<T>> {
    var k := BehindLast(lines, p);
    if k == 0 then None else Some(InsertAt(lines, k, line))
  }

  function FirstFrom<T>(lines: seq<T>, from: nat, p: T -> bool): (k: nat)
    requires from <= |lines|
    ensures from <= k <= |lines| && (k < |lines| ==> p(lines[k])) && forall i :: from <= i < k ==> !p(lines[i])
    decreases |lines| - from
  {
    if from == |lines| then from else if p(lines[from]) then from else FirstFrom(lines, from + 1, p)
  }

  predicate IsItemConst(line: Line) { line.Const? && ItemConstant(line.name) }

  predicate IsItemArm(line: Line) { line.Arm? && "item." <= line.tag && |line.tag| > 5 && ItemConstant(line.constant) }

  predicate IsItemReverse(line: Line) {
    line.Reverse? && "item." <= line.tag && |line.tag| > 5 && ItemConstant(line.constant)
  }

  const MARKER := "ITEM_CLOTH_CAP"

  /** The text `ITEM_CLOTH_CAP,` occurs in this line. */
  predicate HasMarker(line: Line) {
    (line.Arm? && line.constant == MARKER) || (line.Kind? && line.constant == MARKER)
  }

  predicate EndsKinds(line: Line) { line.KindEnd? }

  function AddKind(catalog: seq<Line>, constant: string): Option<seq<Line>> {
    var start := FirstFrom(catalog, 0, HasMarker);
    var end := FirstFrom(catalog, start, EndsKinds);
    if end == |catalog| then None else Some(InsertAt(catalog, end, Kind(constant)))
  }

  /** `insert_catalog`. */
  function InsertCatalog(catalog: seq<Line>, tag: string, id: nat): Result<seq<Line>> {
    var name := ConstName(tag);
    if name.Err? then Err(name.error)
    else if exists line :: line in catalog && Mentions(line, name.value) then Err(ConstantExists)
    else if exists line :: line in catalog && Quotes(line, tag) then Err(LabelExists)
    else
      var one := InsertAfterLast(catalog, IsItemConst, Const(name.value, RawId(id)));
      if one.None? then Err(MissingBlock)
      else
        var two := InsertAfterLast(one.value, IsItemArm, Arm(tag, name.value));
        if two.None? then Err(MissingBlock)
        else
          var three := InsertAfterLast(two.value, IsItemReverse, Reverse(name.value, tag));
          if three.None? then Err(MissingBlock)
          else
            var four := AddKind(three.value, name.value);
            if four.None? then Err(MissingBlock) else Ok(four.value)
  }

  predicate IsItemRow(e: Entry) { e.Row? && ITEM_MIN <= e.id <= ITEM_MAX }

  /** `insert_ledger`. */
  function InsertLedger(ledger: seq<Entry>, tag: string, id: nat): Result<seq<Entry>> {
    if exists e :: e in ledger && e.Row? && e.id == id then Err(LedgerIdExists)
    else
      var more := InsertAfterLast(ledger, IsItemRow, Row(id, tag, "active"));
      if more.None? then Err(MissingBlock) else Ok(more.value)
  }

  // One create.

  datatype Registry = Registry(catalog: seq<Line>, ledger: seq<Entry>)

  datatype Created = Created(registry: Registry, id: nat)

  /** The registry part of `commit_item_create`: allocate, then extend both texts. */
  function Create(r: Registry, tag: string): Result<Created> {
    var id := NextFree(CatalogIds(r.catalog) + LedgerIds(r.ledger), ITEM_MIN);
    if id.Err? then Err(id.error)
    else
      var catalog := InsertCatalog(r.catalog, tag, id.value);
      if catalog.Err? then Err(catalog.error)
      else
        var ledger := InsertLedger(r.ledger, tag, id.value);
        if ledger.Err? then Err(ledger.error) else Ok(Created(Registry(catalog.value, ledger.value), id.value))
  }

  /** A line that decides no lookup but possibly its own. */
  predicate Neutral(line: Line, tag: string, name: string) {
    !(line.Arm? && line.tag == tag) && !(line.Const? && line.name == name)
  }

  lemma InsertNeutral(catalog: seq<Line>, k: nat, line: Line, tag: string, name: string)
    requires k <= |catalog| && Neutral(line, tag, name)
    ensures FindArm(InsertAt(catalog, k, line), tag) == FindArm(catalog, tag)
    ensures FindConst(InsertAt(catalog, k, line), name) == FindConst(catalog, name)
  {
    var a, b := catalog[..k], catalog[k..];
    assert catalog == a + b && [line][1..] == [];
    FindArmConcat(a, b, tag);
    FindArmConcat(a + [line], b, tag);
    FindArmConcat(a, [line], tag);
    FindConstConcat(a, b, name);
    FindConstConcat(a + [line], b, name);
    FindConstConcat(a, [line], name);
  }

  lemma {:induction false} UnquotedArm(catalog: seq<Line>, tag: string)
    requires forall line :: line in catalog ==> !Quotes(line, tag)
    ensures FindArm(catalog, tag) == None
  {
    if catalog != [] {
      assert catalog[0] in catalog;
      UnquotedArm(catalog[1..], tag);
    }
  }

  lemma {:induction false} UnmentionedConst(catalog: seq<Line>, name: string)
    requires forall line :: line in catalog ==> !Mentions(line, name)
    ensures FindConst(catalog, name) == None
  {
    if catalog != [] {
      assert catalog[0] in catalog;
      UnmentionedConst(catalog[1..], name);
    }
  }

  lemma {:induction false} FoundArmMentions(catalog: seq<Line>, tag: string)
    requires FindArm(catalog, tag).Some?
    ensures exists line :: line in catalog && Mentions(line, FindArm(catalog, tag).value)
  {
    var line := catalog[0];
    if line.Arm? && line.tag == tag && ItemConstant(line.constant) {
      assert line in catalog && Mentions(line, line.constant);
    } else {
      FoundArmMentions(catalog[1..], tag);
      var l :| l in catalog[1..] && Mentions(l, FindArm(catalog, tag).value);
      assert l in catalog;
    }
  }

  /** The four lines of an insertion, at the places the search chose. */
  datatype Places = Places(constant: nat, arm: nat, reverse: nat, kind: nat)

  function Inserted(catalog: seq<Line>, p: Places, name: string, tag: string, id: nat): Option<seq<Line>> {
    if p.constant > |catalog| || p.arm > |catalog| + 1 || p.reverse > |catalog| + 2 || p.kind > |catalog| + 3 then None
    else
      var one := InsertAt(catalog, p.constant, Const(name, RawId(id)));
      var two := InsertAt(one, p.arm, Arm(tag, name));
      var three := InsertAt(two, p.reverse, Reverse(name, tag));
      Some(InsertAt(three, p.kind, Kind(name)))
  }

  lemma PlacesOf(catalog: seq<Line>, tag: string, id: nat) returns (p: Places)
    requires InsertCatalog(catalog, tag, id).Ok?
    ensures Inserted(catalog, p, ConstName(tag).value, tag, id) == Some(InsertCatalog(catalog, tag, id).value)
  {
    var name := ConstName(tag).value;
    var a := BehindLast(catalog, IsItemConst);
    var one := InsertAt(catalog, a, Const(name, RawId(id)));
    var b := BehindLast(one, IsItemArm);
    var two := InsertAt(one, b, Arm(tag, name));
    var c := BehindLast(two, IsItemReverse);
    var three := InsertAt(two, c, Reverse(name, tag));
    var d := FirstFrom(three, FirstFrom(three, 0, HasMarker), EndsKinds);
    p := Places(a, b, c, d);
    assert InsertAfterLast(catalog, IsItemConst, Const(name, RawId(id))) == Some(one);
    assert InsertAfterLast(one, IsItemArm, Arm(tag, name)) == Some(two);
    assert InsertAfterLast(two, IsItemReverse, Reverse(name, tag)) == Some(three);
  }

  /** After an insertion the new label resolves to its id, and every other label as before. */
  lemma InsertResolves(catalog: seq<Line>, tag: string, id: nat, other: string)
    requires InsertCatalog(catalog, tag, id).Ok?
    ensures var after := InsertCatalog(catalog, tag, id).value;
      && ContentIdOf(after, tag) == Registered(id)
      && (other != tag ==> ContentIdOf(after, other) == ContentIdOf(catalog, other))
  {
    var name := ConstName(tag).value;
    ConstNameForm(tag);
    var p := PlacesOf(catalog, tag, id);
    UnquotedArm(catalog, tag);
    UnmentionedConst(catalog, name);
    NewLabelFound(catalog, p, name, tag, id);
    if other != tag {
      var arm := FindArm(catalog, other);
      OtherLabelKept(catalog, p, name, tag, id, other, if arm.Some? then arm.value else "");
      if arm.Some? { FoundArmMentions(catalog, other); }
    }
  }

  lemma OtherLabelKept(catalog: seq<Line>, p: Places, name: string, tag: string, id: nat, other: string,
      constant: string)
    requires Inserted(catalog, p, name, tag, id).Some? && other != tag
    ensures var after := Inserted(catalog, p, name, tag, id).value;
      && FindArm(after, other) == FindArm(catalog, other)
      && (constant != name ==> FindConst(after, constant) == FindConst(catalog, constant))
  {
    var one := InsertAt(catalog, p.constant, Const(name, RawId(id)));
    var two := InsertAt(one, p.arm, Arm(tag, name));
    var three := InsertAt(two, p.reverse, Reverse(name, tag));
    var c := if constant != name then constant else name + "_";
    InsertNeutral(catalog, p.constant, Const(name, RawId(id)), other, c);
    InsertNeutral(one, p.arm, Arm(tag, name), other, c);
    InsertNeutral(two, p.reverse, Reverse(name, tag), other, c);
    InsertNeutral(three, p.kind, Kind(name), other, c);
  }

  lemma NewLabelFound(catalog: seq<Line>, p: Places, name: string, tag: string, id: nat)
    requires Inserted(catalog, p, name, tag, id).Some? && ItemConstant(name)
    requires FindArm(catalog, tag) == None && FindConst(catalog, name) == None
    ensures ContentIdOf(Inserted(catalog, p, name, tag, id).value, tag) == Registered(id)
  {
    var constant, arm := Const(name, RawId(id)), Arm(tag, name);
    var one := InsertAt(catalog, p.constant, constant);
    var two := InsertAt(one, p.arm, arm);
    var three := InsertAt(two, p.reverse, Reverse(name, tag));
    RawIdReadsBack(id);
    InsertNeutral(catalog, p.constant, constant, tag, name + "_");
    InsertedConst(catalog, p.constant, constant);
    InsertNeutral(one, p.arm, arm, tag + "_", name);
    InsertedArm(one, p.arm, arm);
    InsertNeutral(two, p.reverse, Reverse(name, tag), tag, name);
    InsertNeutral(three, p.kind, Kind(name), tag, name);
  }

  lemma InsertedConst(catalog: seq<Line>, k: nat, line: Line)
    requires k <= |catalog| && line.Const? && FindConst(catalog, line.name) == None
    ensures FindConst(InsertAt(catalog, k, line), line.name) == Some(ParseRaw(line.digits))
  {
    var a, b := catalog[..k], catalog[k..];
    assert catalog == a + b;
    FindConstConcat(a, b, line.name);
    FindConstConcat(a + [line], b, line.name);
    FindConstConcat(a, [line], line.name);
  }

  lemma InsertedArm(catalog: seq<Line>, k: nat, line: Line)
    requires k <= |catalog| && line.Arm? && ItemConstant(line.constant) && FindArm(catalog, line.tag) == None
    ensures FindArm(InsertAt(catalog, k, line), line.tag) == Some(line.constant)
  {
    var a, b := catalog[..k], catalog[k..];
    assert catalog == a + b;
    FindArmConcat(a, b, line.tag);
    FindArmConcat(a + [line], b, line.tag);
    FindArmConcat(a, [line], line.tag);
  }

  // Runs of creates.

  ghost predicate InjectiveCatalog(catalog: seq<Line>) {
    forall a, b :: ContentIdOf(catalog, a).Registered? && ContentIdOf(catalog, a) == ContentIdOf(catalog, b) ==> a == b
  }

  lemma {:induction false} FoundIdIsUsed(catalog: seq<Line>, name: string)
    requires FindConst(catalog, name).Some?
    ensures FindConst(catalog, name).value in CatalogIds(catalog)
  {
    var line := catalog[0];
    if !(line.Const? && line.name == name) { FoundIdIsUsed(catalog[1..], name); }
  }

  lemma CreateParts(r: Registry, tag: string)
    requires Create(r, tag).Ok?
    ensures var c := Create(r, tag).value;
      && NextFree(CatalogIds(r.catalog) + LedgerIds(r.ledger), ITEM_MIN) == Ok(c.id)
      && InsertCatalog(r.catalog, tag, c.id) == Ok(c.registry.catalog)
      && InsertLedger(r.ledger, tag, c.id) == Ok(c.registry.ledger)
  {
  }

  lemma LedgerRowAdded(ledger: seq<Entry>, tag: string, id: nat)
    requires InsertLedger(ledger, tag, id).Ok?
    ensures Row(id, tag, "active") in InsertLedger(ledger, tag, id).value
  {
    var k := BehindLast(ledger, IsItemRow);
    assert InsertLedger(ledger, tag, id).value[k] == Row(id, tag, "active");
  }

  lemma NotRegisteredYet(catalog: seq<Line>, tag: string, id: nat)
    requires InsertCatalog(catalog, tag, id).Ok?
    ensures ContentIdOf(catalog, tag) == NotRegistered
  {
    UnquotedArm(catalog, tag);
  }

  /** The new label resolves to the id, every other label as before, and no two labels get one id. */
  ghost predicate ExtendsBy(before: seq<Line>, after: seq<Line>, tag: string, id: nat) {
    && ContentIdOf(before, tag) == NotRegistered && ContentIdOf(after, tag) == Registered(id)
    && (forall other :: other != tag ==> ContentIdOf(after, other) == ContentIdOf(before, other))
    && (InjectiveCatalog(before) ==> InjectiveCatalog(after))
  }

  lemma InsertExtends(catalog: seq<Line>, tag: string, id: nat)
    requires InsertCatalog(catalog, tag, id).Ok? && id !in CatalogIds(catalog)
    ensures ExtendsBy(catalog, InsertCatalog(catalog, tag, id).value, tag, id)
  {
    var after := InsertCatalog(catalog, tag, id).value;
    NotRegisteredYet(catalog, tag, id);
    InsertResolves(catalog, tag, id, tag);
    forall other | other != tag ensures ContentIdOf(after, other) == ContentIdOf(catalog, other) {
      InsertResolves(catalog, tag, id, other);
    }
    InjectiveStep(catalog, after, tag, id);
  }

  /** The id is the least of the item range that neither text uses, and the ledger records it. */
  lemma CreateAllocatesLeast(r: Registry, tag: string)
    requires Create(r, tag).Ok?
    ensures var c := Create(r, tag).value;
      && ITEM_MIN <= c.id <= ITEM_MAX && c.id !in CatalogIds(r.catalog) && c.id !in LedgerIds(r.ledger)
      && (forall n :: ITEM_MIN <= n < c.id ==> n in CatalogIds(r.catalog) + LedgerIds(r.ledger))
      && Row(c.id, tag, "active") in c.registry.ledger
  {
    CreateParts(r, tag);
    LedgerRowAdded(r.ledger, tag, Create(r, tag).value.id);
  }

  /** One create: the new label on a fresh id, all other labels unmoved, and still no two labels on one id. */
  lemma CreateExtends(r: Registry, tag: string)
    requires Create(r, tag).Ok?
    ensures ExtendsBy(r.catalog, Create(r, tag).value.registry.catalog, tag, Create(r, tag).value.id)
  {
    CreateParts(r, tag);
    InsertExtends(r.catalog, tag, Create(r, tag).value.id);
  }

  lemma InjectiveStep(before: seq<Line>, after: seq<Line>, tag: string, id: nat)
    requires id !in CatalogIds(before) && ContentIdOf(after, tag) == Registered(id)
    requires forall other :: other != tag ==> ContentIdOf(after, other) == ContentIdOf(before, other)
    ensures InjectiveCatalog(before) ==> InjectiveCatalog(after)
  {
    forall other | ContentIdOf(before, other).Registered? ensures ContentIdOf(before, other).id != id {
      FoundIdIsUsed(before, FindArm(before, other).value);
    }
  }

  /** Creates one after the other; a refused one leaves the registry as it was. */
  function CreateAll(r: Registry, labels: seq<string>): Registry
    decreases |labels|
  {
    if labels == [] then r
    else
      var c := Create(r, labels[0]);
      CreateAll(if c.Ok? then c.value.registry else r, labels[1..])
  }

  /** Over any run of creates no registered label ever moves, and no two labels share an id. */
  lemma {:induction false} CreatesKeepLabels(r: Registry, labels: seq<string>)
    ensures forall l :: ContentIdOf(r.catalog, l).Registered? ==>
      ContentIdOf(CreateAll(r, labels).catalog, l) == ContentIdOf(r.catalog, l)
    ensures InjectiveCatalog(r.catalog) ==> InjectiveCatalog(CreateAll(r, labels).catalog)
    decreases |labels|
  {
    if labels != [] {
      var c := Create(r, labels[0]);
      if c.Ok? {
        CreateExtends(r, labels[0]);
        CreatesKeepLabels(c.value.registry, labels[1..]);
      } else {
        CreatesKeepLabels(r, labels[1..]);
      }
    }
  }

  /** Labels that would need the same constant cannot both be created. */
  lemma ConstantClashRefused(r: Registry, a: string, b: string)
    requires Create(r, a).Ok? && ConstName(a) == ConstName(b)
    ensures Create(Create(r, a).value.registry, b).Err?
  {
    var next := Create(r, a).value.registry;
    var name := ConstName(a).value;
    var p := PlacesOf(r.catalog, a, Create(r, a).value.id);
    assert next.catalog[p.kind] == Kind(name) && Kind(name) in next.catalog && Mentions(Kind(name), name);
  }
}
