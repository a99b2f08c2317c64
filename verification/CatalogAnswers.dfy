/** Names, places and refusals of an extension of the registries, told on the lines themselves. */
module CatalogAnswers {
  import opened Basics
  import opened Catalog
  import Names

  // Names of constants.

  predicate WordPart(c: char) { 'A' <= c <= 'Z' || 'a' <= c <= 'z' || '0' <= c <= '9' }

  /** The words of a label: its longest runs of letters and digits, in order. */
  function Words(s: string): seq<string> {
    if s == "" then []
    else
      var n := |s| - 1;
      var before := Words(s[..n]);
      if !WordPart(s[n]) then before
      else if n > 0 && WordPart(s[n - 1]) && before != [] then before[..|before| - 1] + [before[|before| - 1] + [s[n]]]
      else before + [[s[n]]]
  }

  /** The words with an underscore between each two. */
  function Joined(words: seq<string>): string {
    if words == [] then ""
    else if |words| == 1 then words[0]
    else Joined(words[..|words| - 1]) + "_" + words[|words| - 1]
  }

  predicate IsWord(w: string) { w != "" && forall i :: 0 <= i < |w| ==> WordPart(w[i]) }

  predicate AreWords(words: seq<string>) { forall i :: 0 <= i < |words| ==> IsWord(words[i]) }

  lemma {:induction false} WordsAreWords(s: string)
    ensures AreWords(Words(s))
    ensures s != "" && WordPart(s[|s| - 1]) ==> Words(s) != []
  {
    if s != "" {
      var t, c := s[..|s| - 1], s[|s| - 1];
      var before := Words(t);
      WordsAreWords(t);
      if !WordPart(c) {
        assert Words(s) == before;
      } else if t != "" && WordPart(t[|t| - 1]) {
        var n := |before| - 1;
        assert Words(s) == before[..n] + [before[n] + [c]] && IsWord(before[n]) && IsWord(before[n] + [c]);
      } else {
        assert Words(s) == before + [[c]] && IsWord([c]);
      }
    }
  }

  /** The text begins and ends with a letter or digit, unless it is empty. */
  predicate Trim(s: string) { s != "" ==> WordPart(s[0]) && WordPart(s[|s| - 1]) }

  lemma {:induction false} JoinedIsTrim(words: seq<string>)
    requires AreWords(words)
    ensures Trim(Joined(words)) && (Joined(words) == "" <==> words == [])
  {
    if |words| > 1 {
      JoinedIsTrim(words[..|words| - 1]);
    } else if |words| == 1 {
      assert IsWord(words[0]);
    }
  }

  /** What collapsing leaves around the joined words: an underscore on a side that does not begin or end with a word. */
  function Left(s: string): string { if s != "" && !WordPart(s[0]) then "_" else "" }

  function Right(s: string): string {
    if s != "" && !WordPart(s[|s| - 1]) && Words(s) != [] then "_" else ""
  }

  lemma JoinedMore(words: seq<string>, w: string)
    ensures Joined(words + [w]) == Joined(words) + (if words == [] then "" else "_") + w
  {
    assert (words + [w])[..|words|] == words;
  }

  lemma JoinedGrows(words: seq<string>, c: char)
    requires words != []
    ensures var n := |words| - 1; Joined(words[..n] + [words[n] + [c]]) == Joined(words) + [c]
  {
    var front, last := words[..|words| - 1], words[|words| - 1];
    assert words == front + [last];
    JoinedMore(front, last);
    JoinedMore(front, last + [c]);
    Append(Joined(front) + (if front == [] then "" else "_"), last, c);
  }

  lemma Append(a: string, b: string, c: char)
    ensures a + (b + [c]) == (a + b) + [c]
  {
  }

  /** The words of a text with one more character. */
  lemma WordsSnoc(t: string, c: char)
    ensures var before, words := Words(t), Words(t + [c]);
      if !WordPart(c) then words == before
      else if t != "" && WordPart(t[|t| - 1]) then
        before != [] && words == before[..|before| - 1] + [before[|before| - 1] + [c]]
      else words == before + [[c]]
  {
    assert (t + [c])[..|t|] == t;
    WordsAreWords(t);
  }

  lemma CollapseSnoc(t: string, c: char)
    ensures Collapse(t + [c]) ==
      if WordPart(c) then Collapse(t) + [c]
      else if t != "" && !WordPart(t[|t| - 1]) then Collapse(t) else Collapse(t) + "_"
  {
    var s, n := t + [c], |t|;
    assert s[..n] == t && s[n] == c && (n > 0 ==> s[n - 1] == t[n - 1]);
    assert Alphanumeric(c) <==> WordPart(c);
  }

  predicate Collapses(s: string) { Collapse(s) == Left(s) + Joined(Words(s)) + Right(s) }

  lemma CollapsesOther(t: string, c: char)
    requires Collapses(t) && !WordPart(c)
    ensures Collapses(t + [c])
  {
    WordsSnoc(t, c);
    CollapseSnoc(t, c);
    WordsAreWords(t);
    if t == "" { assert Words(t) == [] && Collapse(t) == ""; }
  }

  lemma Regroup(left: string, stem: string, right: string, c: char)
    ensures (left + stem + right) + [c] == left + (stem + right + [c]) + ""
  {
  }

  /** A character that goes on with the last word. */
  lemma CollapsesOn(t: string, c: char)
    requires Collapses(t) && WordPart(c) && t != "" && WordPart(t[|t| - 1])
    ensures Collapses(t + [c])
  {
    WordsSnoc(t, c);
    CollapseSnoc(t, c);
    JoinedGrows(Words(t), c);
    Regroup(Left(t), Joined(Words(t)), "", c);
    assert Joined(Words(t)) + "" == Joined(Words(t));
    assert (t + [c])[0] == t[0];
  }

  /** A character that begins a word. */
  lemma CollapsesNew(t: string, c: char)
    requires Collapses(t) && WordPart(c) && !(t != "" && WordPart(t[|t| - 1]))
    ensures Collapses(t + [c])
  {
    WordsSnoc(t, c);
    CollapseSnoc(t, c);
    JoinedMore(Words(t), [c]);
    Regroup(Left(t), Joined(Words(t)), Right(t), c);
    assert Right(t) == if Words(t) == [] then "" else "_";
    if t != "" { assert (t + [c])[0] == t[0]; }
  }

  lemma {:induction false} CollapseTells(s: string)
    ensures Collapses(s)
  {
    if s != "" {
      var t, c := s[..|s| - 1], s[|s| - 1];
      assert s == t + [c];
      CollapseTells(t);
      if !WordPart(c) {
        CollapsesOther(t, c);
      } else if t != "" && WordPart(t[|t| - 1]) {
        CollapsesOn(t, c);
      } else {
        CollapsesNew(t, c);
      }
    }
  }

  lemma StripTells(s: string, left: string, right: string)
    requires Trim(s) && left in ["", "_"] && right in ["", "_"] && (s == "" ==> right == "")
    ensures StripLeft(StripRight(left + s + right)) == s
  {
    var text := left + s + right;
    if right == "_" {
      assert text[..|text| - 1] == left + s;
      assert StripRight(text) == StripRight(left + s);
    } else {
      assert text == left + s;
    }
    if s == "" {
      assert left + s == left;
      assert left == "_" ==> left[..0] == "" && StripRight(left) == StripRight("");
    } else {
      assert (left + s)[|left + s| - 1] == s[|s| - 1];
      assert StripRight(left + s) == left + s;
      if left == "_" { assert (left + s)[1..] == s; } else { assert left + s == s; }
    }
  }

  /** The stem of a constant is the words of the label, joined. */
  lemma StemTells(s: string)
    ensures StripLeft(StripRight(Collapse(s))) == Joined(Words(s))
    ensures Joined(Words(s)) == "" <==> Words(s) == []
  {
    CollapseTells(s);
    WordsAreWords(s);
    JoinedIsTrim(Words(s));
    StripTells(Joined(Words(s)), Left(s), Right(s));
  }

  /** The same text in capitals. */
  predicate Capitals(text: string, upper: string) {
    |text| == |upper| && forall i :: 0 <= i < |text| ==>
      upper[i] == if 'a' <= text[i] <= 'z' then (text[i] as int - 32) as char else text[i]
  }

  /** The constant of a label: the prefix, and the words behind the label's own prefix, joined and in capitals. */
  predicate IsConstant(name: string, prefix: string, tag: string, drop: string) {
    var stem := Joined(Words(if |tag| >= |drop| && tag[..|drop|] == drop then tag[|drop|..] else tag));
    |name| >= |prefix| && name[..|prefix|] == prefix && Capitals(stem, name[|prefix|..])
  }

  predicate NoWords(tag: string, drop: string) {
    Words(if |tag| >= |drop| && tag[..|drop|] == drop then tag[|drop|..] else tag) == []
  }

  lemma ConstNameTells(tag: string)
    ensures NoWords(tag, "item.") <==> ConstName(tag) == Err(EmptyName)
    ensures !NoWords(tag, "item.") ==> ConstName(tag).Ok? && IsConstant(ConstName(tag).value, "ITEM_", tag, "item.")
  {
    var rest := RemovePrefix(tag, "item.");
    StemTells(rest);
    var body := UpperAll(Joined(Words(rest)));
    assert ("ITEM_" + body)[5..] == body && |"ITEM_"| == 5;
  }

  // Places.

  /** The line stands right behind the last line of its kind, and nothing else has changed. */
  ghost predicate Behind<T(!new)>(before: seq<T>, after: seq<T>, line: T, kind: T -> bool) {
    exists k :: BehindAt(before, after, line, kind, k)
  }

  predicate BehindAt<T(==)>(before: seq<T>, after: seq<T>, line: T, kind: T -> bool, k: int) {
    && 0 < k <= |before| && kind(before[k - 1]) && (forall i :: k <= i < |before| ==> !kind(before[i]))
    && after == before[..k] + [line] + before[k..]
  }

  predicate NoneOf<T>(lines: seq<T>, kind: T -> bool) { forall i :: 0 <= i < |lines| ==> !kind(lines[i]) }

  lemma InsertTells<T(!new)>(lines: seq<T>, p: T -> bool, kind: T -> bool, line: T)
    requires forall l :: p(l) <==> kind(l)
    ensures InsertAfterLast(lines, p, line).None? <==> NoneOf(lines, kind)
    ensures InsertAfterLast(lines, p, line).Some? ==> Behind(lines, InsertAfterLast(lines, p, line).value, line, kind)
  {
    var k := BehindLast(lines, p);
    if k > 0 { assert BehindAt(lines, InsertAt(lines, k, line), line, kind, k); }
  }

  predicate Named(name: string, prefix: string) {
    |name| > |prefix| && name[..|prefix|] == prefix
    && forall i :: |prefix| <= i < |name| ==> 'A' <= name[i] <= 'Z' || '0' <= name[i] <= '9' || name[i] == '_'
  }

  predicate Labelled(tag: string, prefix: string) { |tag| > |prefix| && tag[..|prefix|] == prefix }

  predicate ItemConstLine(line: Line) { line.Const? && Named(line.name, "ITEM_") }

  predicate ItemArmLine(line: Line) { line.Arm? && Labelled(line.tag, "item.") && Named(line.constant, "ITEM_") }

  predicate ItemReverseLine(line: Line) {
    line.Reverse? && Labelled(line.tag, "item.") && Named(line.constant, "ITEM_")
  }

  predicate ItemRowLine(e: Entry) { e.Row? && 30_000 <= e.id <= 39_999 }

  lemma KindsAgree()
    ensures forall l :: IsItemConst(l) <==> ItemConstLine(l)
    ensures forall l :: IsItemArm(l) <==> ItemArmLine(l)
    ensures forall l :: IsItemReverse(l) <==> ItemReverseLine(l)
    ensures forall e :: IsItemRow(e) <==> ItemRowLine(e)
  {
    forall name: string ensures ItemConstant(name) <==> Named(name, "ITEM_") { assert |"ITEM_"| == 5; }
    forall tag: string ensures "item." <= tag && |tag| > 5 <==> Labelled(tag, "item.") { assert |"item."| == 5; }
  }

  /** The numeral of an id: its digits, with an underscore in front of the last three. */
  predicate Numeral(id: nat, digits: string) {
    |digits| > 4 && digits[|digits| - 4] == '_'
    && IsDigit(digits[|digits| - 1], id % 10) && IsDigit(digits[|digits| - 2], id / 10 % 10)
    && IsDigit(digits[|digits| - 3], id / 100 % 10)
    && DecimalOf(id / 1000, digits[..|digits| - 4])
  }

  predicate IsDigit(c: char, d: nat) { d < 10 && c as int == '0' as int + d }

  /** Decimal digits without leading zeros. */
  predicate DecimalOf(n: nat, digits: string)
    decreases n
  {
    digits != [] && IsDigit(digits[|digits| - 1], n % 10)
    && if n < 10 then |digits| == 1 else DecimalOf(n / 10, digits[..|digits| - 1])
  }

  lemma {:induction false} DecimalTells(n: nat)
    ensures DecimalOf(n, Names.Decimal(n))
  {
    var d := Names.Decimal(n);
    if n >= 10 {
      DecimalTells(n / 10);
      assert d[..|d| - 1] == Names.Decimal(n / 10);
    }
  }

  lemma RawIdTells(id: nat)
    ensures Numeral(id, RawId(id))
  {
    DecimalTells(id / 1000);
    var high, digits := Names.Decimal(id / 1000), RawId(id);
    assert digits[..|digits| - 4] == high;
    LastThree(id);
  }

  lemma Tenth(x: nat, y: nat)
    requires y < 10
    ensures (10 * x + y) / 10 == x && (10 * x + y) % 10 == y
  {
  }

  lemma Hundredth(x: nat, y: nat)
    requires y < 100
    ensures (100 * x + y) / 100 == x
  {
  }

  lemma LastThree(id: nat)
    ensures id % 1000 / 100 == id / 100 % 10 && id % 1000 / 10 % 10 == id / 10 % 10 && id % 1000 % 10 == id % 10
  {
    var q, r := id / 1000, id % 1000;
    var a, b, c := r / 100, r / 10 % 10, r % 10;
    ThreeDigitsOf(r);
    assert id == 1000 * q + 100 * a + 10 * b + c;
    Tenth(100 * q + 10 * a + b, c);
    Tenth(10 * q + a, b);
    Hundredth(10 * q + a, 10 * b + c);
    Tenth(q, a);
  }

  lemma ThreeDigitsOf(r: nat)
    requires r < 1000
    ensures r == 100 * (r / 100) + 10 * (r / 10 % 10) + r % 10 && r / 100 < 10
  {
    assert r / 10 == 10 * (r / 100) + r / 10 % 10;
  }

  // Extending both texts.

  /** The constant occurs in the line as a word. */
  predicate HasWord(line: Line, word: string) {
    match line
    case Const(name, _) => word == name
    case Arm(_, constant) => word == constant
    case Reverse(constant, _) => word == constant
    case Kind(constant) => word == constant
    case KindEnd => false
    case Other(words, _, _) => word in words
  }

  /** The label occurs in the line in quotes. */
  predicate HasLabel(line: Line, tag: string) {
    match line
    case Arm(text, _) => tag == text
    case Reverse(_, text) => tag == text
    case Other(_, quoted, _) => tag in quoted
    case _ => false
  }

  predicate CapLine(line: Line) {
    (line.Arm? || line.Kind?) && line.constant == "ITEM_CLOTH_CAP"
  }

  /** The first list end at or behind the first line with the cap. */
  predicate KindPlace(lines: seq<Line>, m: int, e: int) {
    && 0 <= m <= e < |lines| && CapLine(lines[m]) && (forall i :: 0 <= i < m ==> !CapLine(lines[i]))
    && lines[e].KindEnd? && forall i :: m <= i < e ==> !lines[i].KindEnd?
  }

  ghost predicate KindAdded(before: seq<Line>, after: seq<Line>, name: string) {
    exists m, e :: KindPlace(before, m, e) && after == before[..e] + [Kind(name)] + before[e..]
  }

  lemma KindTells(lines: seq<Line>, name: string)
    ensures AddKind(lines, name).Some? ==> KindAdded(lines, AddKind(lines, name).value, name)
    ensures AddKind(lines, name).None? ==> forall m, e :: !KindPlace(lines, m, e)
  {
    var start := FirstFrom(lines, 0, HasMarker);
    var end := FirstFrom(lines, start, EndsKinds);
    if end < |lines| {
      assert KindPlace(lines, start, end);
      assert AddKind(lines, name).value == lines[..end] + [Kind(name)] + lines[end..];
    } else {
      forall m, e ensures !KindPlace(lines, m, e) {
        if KindPlace(lines, m, e) {
          assert HasMarker(lines[m]) && EndsKinds(lines[e]);
        }
      }
    }
  }

  /** The three lines of a label in place: constant, arm and reverse arm, each behind the last of its kind. */
  ghost predicate ItemLines(before: seq<Line>, after: seq<Line>, tag: string, name: string, id: nat) {
    exists one, two, digits ::
      && Numeral(id, digits) && Behind(before, one, Const(name, digits), ItemConstLine)
      && Behind(one, two, Arm(tag, name), ItemArmLine) && Behind(two, after, Reverse(name, tag), ItemReverseLine)
  }

  predicate LacksItemBlock(lines: seq<Line>) {
    NoneOf(lines, ItemConstLine) || NoneOf(lines, ItemArmLine) || NoneOf(lines, ItemReverseLine)
  }

  predicate SomeHasWord(lines: seq<Line>, name: string) { exists i :: 0 <= i < |lines| && HasWord(lines[i], name) }

  predicate SomeHasLabel(lines: seq<Line>, tag: string) { exists i :: 0 <= i < |lines| && HasLabel(lines[i], tag) }

  lemma MentionTells(lines: seq<Line>, name: string, tag: string)
    ensures (exists line :: line in lines && Mentions(line, name)) <==> SomeHasWord(lines, name)
    ensures (exists line :: line in lines && Quotes(line, tag)) <==> SomeHasLabel(lines, tag)
  {
    if line :| line in lines && Mentions(line, name) {
      var i :| 0 <= i < |lines| && lines[i] == line;
      assert HasWord(lines[i], name);
    }
    if i :| 0 <= i < |lines| && HasWord(lines[i], name) { assert lines[i] in lines && Mentions(lines[i], name); }
    if line :| line in lines && Quotes(line, tag) {
      var i :| 0 <= i < |lines| && lines[i] == line;
      assert HasLabel(lines[i], tag);
    }
    if i :| 0 <= i < |lines| && HasLabel(lines[i], tag) { assert lines[i] in lines && Quotes(lines[i], tag); }
  }

  /** Putting in a line of another kind neither adds nor removes lines of a kind. */
  lemma OtherKind<T(!new)>(before: seq<T>, after: seq<T>, line: T, kind: T -> bool, other: T -> bool)
    requires Behind(before, after, line, kind) && !other(line)
    ensures NoneOf(after, other) <==> NoneOf(before, other)
  {
    var k :| BehindAt(before, after, line, kind, k);
    if NoneOf(before, other) {
      forall i | 0 <= i < |after| ensures !other(after[i]) {
        assert after[i] == if i < k then before[i] else if i == k then line else before[i - 1];
      }
    }
    if NoneOf(after, other) {
      forall i | 0 <= i < |before| ensures !other(before[i]) {
        assert before[i] == after[if i < k then i else i + 1];
      }
    }
  }

  lemma ItemLinesTell(catalog: seq<Line>, tag: string, name: string, id: nat)
    ensures var one := InsertAfterLast(catalog, IsItemConst, Const(name, RawId(id)));
      if one.None? then NoneOf(catalog, ItemConstLine)
      else
        var two := InsertAfterLast(one.value, IsItemArm, Arm(tag, name));
        if two.None? then NoneOf(catalog, ItemArmLine)
        else
          var three := InsertAfterLast(two.value, IsItemReverse, Reverse(name, tag));
          if three.None? then NoneOf(catalog, ItemReverseLine)
          else ItemLines(catalog, three.value, tag, name, id) && !LacksItemBlock(catalog)
  {
    KindsAgree();
    RawIdTells(id);
    var x, y, z := Const(name, RawId(id)), Arm(tag, name), Reverse(name, tag);
    InsertTells(catalog, IsItemConst, ItemConstLine, x);
    var one := InsertAfterLast(catalog, IsItemConst, x);
    if one.Some? {
      OtherKind(catalog, one.value, x, ItemConstLine, ItemArmLine);
      OtherKind(catalog, one.value, x, ItemConstLine, ItemReverseLine);
      InsertTells(one.value, IsItemArm, ItemArmLine, y);
      var two := InsertAfterLast(one.value, IsItemArm, y);
      if two.Some? {
        OtherKind(one.value, two.value, y, ItemArmLine, ItemReverseLine);
        InsertTells(two.value, IsItemReverse, ItemReverseLine, z);
      }
    }
  }

  /** The catalog is extended by the label: its three lines, and its kind at the first list end behind the cap. */
  ghost predicate Extends(before: seq<Line>, after: seq<Line>, tag: string, name: string, id: nat) {
    exists three :: ItemLines(before, three, tag, name, id) && KindAdded(three, after, name)
  }

  /** The three lines can be put in, but there is no place for the kind. */
  ghost predicate LacksKindPlace(before: seq<Line>, tag: string, name: string, id: nat) {
    exists three :: ItemLines(before, three, tag, name, id) && forall m, e :: !KindPlace(three, m, e)
  }

  /** Extending the catalog by a label with this constant: what refuses it, in order, and what it does otherwise. */
  lemma InsertCatalogTells(catalog: seq<Line>, tag: string, id: nat, name: string)
    requires IsConstant(name, "ITEM_", tag, "item.") && !NoWords(tag, "item.")
    ensures match InsertCatalog(catalog, tag, id)
      case Ok(after) =>
        !SomeHasWord(catalog, name) && !SomeHasLabel(catalog, tag) && Extends(catalog, after, tag, name, id)
      case Err(ConstantExists) => SomeHasWord(catalog, name)
      case Err(LabelExists) => !SomeHasWord(catalog, name) && SomeHasLabel(catalog, tag)
      case Err(MissingBlock) =>
        && !SomeHasWord(catalog, name) && !SomeHasLabel(catalog, tag)
        && (LacksItemBlock(catalog) || LacksKindPlace(catalog, tag, name, id))
      case _ => false
  {
    ConstNameTells(tag);
    SameConstant(name, ConstName(tag).value, "ITEM_", tag, "item.");
    MentionTells(catalog, name, tag);
    ItemLinesTell(catalog, tag, name, id);
    var one := InsertAfterLast(catalog, IsItemConst, Const(name, RawId(id)));
    if one.Some? {
      var two := InsertAfterLast(one.value, IsItemArm, Arm(tag, name));
      if two.Some? {
        var three := InsertAfterLast(two.value, IsItemReverse, Reverse(name, tag));
        if three.Some? { KindTells(three.value, name); }
      }
    }
  }

  /** A label has one constant. */
  lemma SameConstant(a: string, b: string, prefix: string, tag: string, drop: string)
    requires IsConstant(a, prefix, tag, drop) && IsConstant(b, prefix, tag, drop)
    ensures a == b
  {
    var n := |prefix|;
    assert |a| == |b|;
    forall i | 0 <= i < |a| ensures a[i] == b[i] {
      if i < n {
        assert a[..n][i] == b[..n][i];
      } else {
        assert a[n..][i - n] == b[n..][i - n];
      }
    }
  }

  predicate HasRow(ledger: seq<Entry>, id: nat) {
    exists i :: 0 <= i < |ledger| && ledger[i].Row? && ledger[i].id == id
  }

  lemma InsertLedgerTells(ledger: seq<Entry>, tag: string, id: nat)
    ensures match InsertLedger(ledger, tag, id)
      case Ok(after) => !HasRow(ledger, id) && Behind(ledger, after, Row(id, tag, "active"), ItemRowLine)
      case Err(LedgerIdExists) => HasRow(ledger, id)
      case Err(MissingBlock) => !HasRow(ledger, id) && NoneOf(ledger, ItemRowLine)
      case _ => false
  {
    KindsAgree();
    InsertTells(ledger, IsItemRow, ItemRowLine, Row(id, tag, "active"));
    if e :| e in ledger && e.Row? && e.id == id {
      var i :| 0 <= i < |ledger| && ledger[i] == e;
      assert HasRow(ledger, id);
    }
  }

  // Ids in use.

  /** The number written by a text of digits: underscores are passed over. */
  function Value(digits: string): nat {
    if digits == "" then 0
    else
      var front, c := digits[..|digits| - 1], digits[|digits| - 1];
      if '0' <= c <= '9' then 10 * Value(front) + (c as int - '0' as int) as nat
      else if c == '_' then Value(front)
      else 10 * Value(front)
  }

  lemma {:induction false} ValueTells(digits: string)
    ensures Value(digits) == ParseRaw(digits)
  {
    if digits != "" { ValueTells(digits[..|digits| - 1]); }
  }

  predicate UsesId(line: Line, id: nat) {
    match line
    case Const(_, digits) => Value(digits) == id
    case Other(_, _, ids) => id in ids
    case _ => false
  }

  predicate EntryUses(e: Entry, id: nat) {
    match e
    case Row(n, _, _) => n == id
    case Prose(ids) => id in ids
  }

  /** Some line of the two texts uses the id. */
  predicate InUse(r: Registry, id: nat) {
    || (exists i :: 0 <= i < |r.catalog| && UsesId(r.catalog[i], id))
    || (exists i :: 0 <= i < |r.ledger| && EntryUses(r.ledger[i], id))
  }

  lemma {:induction false} CatalogIdsTell(catalog: seq<Line>, id: nat)
    ensures id in CatalogIds(catalog) <==> exists i :: 0 <= i < |catalog| && UsesId(catalog[i], id)
  {
    if catalog != [] {
      CatalogIdsTell(catalog[1..], id);
      if catalog[0].Const? { ValueTells(catalog[0].digits); }
      if i :| 0 <= i < |catalog[1..]| && UsesId(catalog[1..][i], id) { assert UsesId(catalog[i + 1], id); }
      if i :| 0 <= i < |catalog| && UsesId(catalog[i], id) {
        if i > 0 { assert UsesId(catalog[1..][i - 1], id); }
      }
    }
  }

  lemma {:induction false} LedgerIdsTell(ledger: seq<Entry>, id: nat)
    ensures id in LedgerIds(ledger) <==> exists i :: 0 <= i < |ledger| && EntryUses(ledger[i], id)
  {
    if ledger != [] {
      LedgerIdsTell(ledger[1..], id);
      if i :| 0 <= i < |ledger[1..]| && EntryUses(ledger[1..][i], id) { assert EntryUses(ledger[i + 1], id); }
      if i :| 0 <= i < |ledger| && EntryUses(ledger[i], id) {
        if i > 0 { assert EntryUses(ledger[1..][i - 1], id); }
      }
    }
  }

  /** The least id of the item range that is not in use. */
  predicate IsNextItem(r: Registry, id: nat) {
    30_000 <= id <= 39_999 && !InUse(r, id) && forall n :: 30_000 <= n < id ==> InUse(r, n)
  }

  predicate ItemsExhausted(r: Registry) { forall n :: 30_000 <= n <= 39_999 ==> InUse(r, n) }

  lemma InUseTells(r: Registry, id: nat)
    ensures id in CatalogIds(r.catalog) + LedgerIds(r.ledger) <==> InUse(r, id)
  {
    CatalogIdsTell(r.catalog, id);
    LedgerIdsTell(r.ledger, id);
  }

  lemma NextItemTells(r: Registry)
    ensures match NextFree(CatalogIds(r.catalog) + LedgerIds(r.ledger), ITEM_MIN)
      case Ok(id) => IsNextItem(r, id)
      case Err(e) => e == Exhausted && ItemsExhausted(r)
  {
    forall n: nat ensures n in CatalogIds(r.catalog) + LedgerIds(r.ledger) <==> InUse(r, n) {
      InUseTells(r, n);
    }
  }

  /** What a create does to both texts. */
  ghost predicate Creates(r: Registry, tag: string, after: Registry, id: nat) {
    exists name ::
      && IsConstant(name, "ITEM_", tag, "item.") && !SomeHasWord(r.catalog, name)
      && Extends(r.catalog, after.catalog, tag, name, id)
      && Behind(r.ledger, after.ledger, Row(id, tag, "active"), ItemRowLine)
  }

  /** A create takes the least free id and extends both texts by it; each refusal says what was in the way. */
  lemma CreateTells(r: Registry, tag: string)
    ensures match Create(r, tag)
      case Ok(c) =>
        && IsNextItem(r, c.id) && !NoWords(tag, "item.") && !SomeHasLabel(r.catalog, tag)
        && Creates(r, tag, c.registry, c.id)
      case Err(Exhausted) => ItemsExhausted(r)
      case Err(EmptyName) => NoWords(tag, "item.") && !ItemsExhausted(r)
      case Err(ConstantExists) =>
        exists name :: IsConstant(name, "ITEM_", tag, "item.") && SomeHasWord(r.catalog, name)
      case Err(LabelExists) => SomeHasLabel(r.catalog, tag)
      case Err(MissingBlock) =>
        || LacksItemBlock(r.catalog) || NoneOf(r.ledger, ItemRowLine)
        || exists name, id :: LacksKindPlace(r.catalog, tag, name, id)
      case Err(LedgerIdExists) => false
  {
    NextItemTells(r);
    ConstNameTells(tag);
    var next := NextFree(CatalogIds(r.catalog) + LedgerIds(r.ledger), ITEM_MIN);
    if next.Ok? {
      if i :| 0 <= i < |r.ledger| && r.ledger[i].Row? && r.ledger[i].id == next.value {
        assert EntryUses(r.ledger[i], next.value);
      }
      InsertLedgerTells(r.ledger, tag, next.value);
      if !NoWords(tag, "item.") { InsertCatalogTells(r.catalog, tag, next.value, ConstName(tag).value); }
    }
  }
}
