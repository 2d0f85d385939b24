/**
 * Checklist generation of lib/checklist.ts: the fixed template of 19
 * milestones, expanded against a departure date into items labelled with
 * relative-day labels and ordered by the number in the label, largest first,
 * with ties kept in template order.
 */
module Checklist {
  import opened Types
  import opened Utils

  /** One milestone of the template: what to do, how many days before departure, and its category. */
  datatype TemplateEntry = TemplateEntry(title: string, daysBefore: nat, category: string)

  /** The milestone template, in declaration order. */
  const Template: seq<TemplateEntry> := [
    TemplateEntry("여권 유효기간 확인 및 갱신", 180, "서류"),
    TemplateEntry("비자 신청 서류 준비", 150, "서류"),
    TemplateEntry("비자 신청 제출", 120, "서류"),
    TemplateEntry("학교 입학허가서 확인", 120, "학교"),
    TemplateEntry("학비 납부", 90, "학교"),
    TemplateEntry("의료보험 가입 신청", 90, "보험"),
    TemplateEntry("예방접종 확인 및 추가 접종", 90, "보험"),
    TemplateEntry("은행 계좌 개설 준비 (서류 등)", 60, "금융"),
    TemplateEntry("국제 신용카드/체크카드 발급", 60, "금융"),
    TemplateEntry("항공권 예약", 60, "여행"),
    TemplateEntry("숙소 확정 (기숙사/홈스테이/월세)", 60, "주거"),
    TemplateEntry("첫 달 월세/보증금 납부", 45, "주거"),
    TemplateEntry("통신사/유심카드 준비", 30, "통신"),
    TemplateEntry("짐 리스트 작성 (옷, 전자기기, 서류 등)", 30, "준비물"),
    TemplateEntry("필수 서류 복사본 준비", 14, "서류"),
    TemplateEntry("현지 연락처 및 주소 정리", 14, "정보"),
    TemplateEntry("공항 픽업/교통편 확인", 7, "여행"),
    TemplateEntry("최종 짐 꾸리기", 3, "준비물"),
    TemplateEntry("출국 전 최종 점검", 1, "기타")
  ]

  /** The title of the milestone closest to departure. */
  const FinalCheckTitle: string := "출국 전 최종 점검"

  lemma TemplateFacts()
    ensures |Template| == 19
    ensures Template[18].title == FinalCheckTitle && Template[18].daysBefore == 1
    ensures forall i :: 0 <= i < 18 ==> Template[i].daysBefore >= Template[i + 1].daysBefore
    ensures forall i :: 0 <= i < 18 ==> Template[i].daysBefore >= 3
  {
  }

  /** Template `daysBefore` values never increase along the template. */
  lemma {:induction false} TemplateDaysNonIncreasing(i: int, j: int)
    requires 0 <= i <= j < |Template|
    ensures Template[i].daysBefore >= Template[j].daysBefore
    decreases j - i
  {
    TemplateFacts();
    if i < j {
      TemplateDaysNonIncreasing(i + 1, j);
    }
  }

  // ---------------------------------------------------------------------
  // Items and their sort key
  // ---------------------------------------------------------------------

  /** The id of a generated item: the days-before count, a dash, the title. */
  function TemplateId(entry: TemplateEntry): string
  {
    NatToString(entry.daysBefore) + "-" + entry.title
  }

  /**
   * The item for one template entry: its target date is `daysBefore` days
   * before `departure`, and its label counts the days from `today` to that
   * target.
   */
  function MakeItem(entry: TemplateEntry, departure: int, today: int): (item: ChecklistItem)
    ensures item.id == TemplateId(entry)
    ensures item.title == entry.title && item.category == entry.category && !item.completed
    ensures item.recommendedDate == FormatDaysUntil(DaysUntil(departure - entry.daysBefore, today))
  {
    var target := departure - entry.daysBefore;
    ChecklistItem(TemplateId(entry), entry.title, FormatDaysUntil(DaysUntil(target, today)), false, entry.category)
  }

  /** `pat` occurs in `s` starting at index `j`. */
  predicate OccursAt(s: string, pat: string, j: int)
  {
    0 <= j && j + |pat| <= |s| && s[j..j + |pat|] == pat
  }

  /** An occurrence at `j` in `s` is one at `j - 1` in `s` without its first character. */
  lemma OccursAtShift(s: string, pat: string, j: int)
    requires |s| >= 1 && j >= 1
    ensures OccursAt(s, pat, j) <==> OccursAt(s[1..], pat, j - 1)
  {
    if j + |pat| <= |s| {
      assert s[1..][j - 1..j - 1 + |pat|] == s[j..j + |pat|];
    }
  }

  /** `s.indexOf(pat)`: the first index at which `pat` occurs, if there is one. */
  function IndexOf(s: string, pat: string): (r: Option<nat>)
    ensures r.Some? ==> OccursAt(s, pat, r.value) && forall j :: 0 <= j < r.value ==> !OccursAt(s, pat, j)
    ensures r.None? ==> forall j :: !OccursAt(s, pat, j)
    decreases |s|
  {
    if |pat| > |s| then None
    else if s[..|pat|] == pat then Some(0)
    else
      assert forall j :: j >= 1 ==> (OccursAt(s, pat, j) <==> OccursAt(s[1..], pat, j - 1)) by {
        forall j | j >= 1 ensures OccursAt(s, pat, j) <==> OccursAt(s[1..], pat, j - 1) {
          OccursAtShift(s, pat, j);
        }
      }
      match IndexOf(s[1..], pat)
      case Some(k) => Some(k + 1)
      case None => None
  }

  /** `s.replace(pat, rep)` with a string pattern: only the first occurrence is replaced. */
  function ReplaceFirst(s: string, pat: string, rep: string): (r: string)
    ensures (forall j :: !OccursAt(s, pat, j)) ==> r == s
    ensures forall i :: OccursAt(s, pat, i) && (forall j :: 0 <= j < i ==> !OccursAt(s, pat, j)) ==>
      r == s[..i] + rep + s[i + |pat|..]
  {
    match IndexOf(s, pat)
    case None => s
    case Some(i) => s[..i] + rep + s[i + |pat|..]
  }

  /** Neither "D-" nor "D+" occurs in a run of digits. */
  lemma NoLabelPrefixInDigits(d: string, pat: string)
    requires AllDigits(d) && |pat| == 2 && pat[0] == 'D'
    ensures forall j :: !OccursAt(d, pat, j)
  {
    forall j ensures !OccursAt(d, pat, j) {
      if 0 <= j && j + 2 <= |d| {
        assert d[j..j + 2][0] == d[j] && IsDigit(d[j]);
      }
    }
  }

  /** "D-" and digits: the first `replace` removes the prefix and the second finds nothing. */
  lemma StripDashLabel(text: string)
    requires |text| >= 2 && text[..2] == "D-" && AllDigits(text[2..])
    ensures ReplaceFirst(ReplaceFirst(text, "D-", ""), "D+", "-") == text[2..]
  {
    assert OccursAt(text, "D-", 0);
    assert ReplaceFirst(text, "D-", "") == text[2..];
    NoLabelPrefixInDigits(text[2..], "D+");
  }

  /** "D+" and digits: the first `replace` finds nothing and the second turns the prefix into '-'. */
  lemma StripPlusLabel(text: string)
    requires |text| >= 2 && text[..2] == "D+" && AllDigits(text[2..])
    ensures ReplaceFirst(ReplaceFirst(text, "D-", ""), "D+", "-") == "-" + text[2..]
  {
    var d := text[2..];
    NoLabelPrefixInDigits(d, "D-");
    forall j ensures !OccursAt(text, "D-", j) {
      if j == 1 && 3 <= |text| {
        assert text[1..3][0] == text[1] == '+';
      } else if j >= 2 && j + 2 <= |text| {
        assert text[j..j + 2] == d[j - 2..j];
      }
    }
    assert ReplaceFirst(text, "D-", "") == text;
    assert OccursAt(text, "D+", 0);
  }

  /**
   * `text.replace('D-', '').replace('D+', '-')`: the text `parseInt` sees.
   * Each `replace` rewrites the first occurrence wherever it is; on the
   * labels the generator writes that occurrence is the prefix.
   */
  function StripLabel(text: string): (r: string)
    ensures |text| >= 2 && text[..2] == "D-" && AllDigits(text[2..]) ==> r == text[2..]
    ensures |text| >= 2 && text[..2] == "D+" && AllDigits(text[2..]) ==> r == "-" + text[2..]
  {
    assert |text| >= 2 && text[..2] == "D-" && AllDigits(text[2..]) ==>
      ReplaceFirst(ReplaceFirst(text, "D-", ""), "D+", "-") == text[2..] by {
      if |text| >= 2 && text[..2] == "D-" && AllDigits(text[2..]) {
        StripDashLabel(text);
      }
    }
    assert |text| >= 2 && text[..2] == "D+" && AllDigits(text[2..]) ==>
      ReplaceFirst(ReplaceFirst(text, "D-", ""), "D+", "-") == "-" + text[2..] by {
      if |text| >= 2 && text[..2] == "D+" && AllDigits(text[2..]) {
        StripPlusLabel(text);
      }
    }
    ReplaceFirst(ReplaceFirst(text, "D-", ""), "D+", "-")
  }

  /** The digits after a label's two-character prefix parse, with or without a '-' in front. */
  lemma LabelDigitsParse(text: string)
    ensures |text| >= 3 && AllDigits(text[2..]) ==>
      && ParseInt(text[2..]) == Some(DigitsValue(text[2..]) as int)
      && ParseInt("-" + text[2..]) == Some(-(DigitsValue(text[2..]) as int))
  {
    if |text| >= 3 && AllDigits(text[2..]) {
      var negated := "-" + text[2..];
      assert negated[1..] == text[2..];
    }
  }

  /** The number parsed back out of a label; `None` stands for NaN. */
  function LabelNumber(text: string): (r: Option<int>)
    ensures |text| >= 3 && text[..2] == "D-" && AllDigits(text[2..]) ==> r == Some(DigitsValue(text[2..]) as int)
    ensures |text| >= 3 && text[..2] == "D+" && AllDigits(text[2..]) ==> r == Some(-(DigitsValue(text[2..]) as int))
  {
    var stripped := StripLabel(text);
    LabelDigitsParse(text);
    ParseInt(stripped)
  }

  /**
   * Every label the generator writes parses back: "D-n" to n and "D+0" to
   * -0, which equals 0. So the sort key of a day count is that count, with
   * past days counting as 0.
   */
  lemma LabelNumberOfFormat(days: int)
    ensures LabelNumber(FormatDaysUntil(days)) == Some(if days < 0 then 0 else days)
  {
    var text := FormatDaysUntil(days);
    if days < 0 {
      assert text[..2] == "D+" && text[2..] == "0";
      assert DigitsValue("0"[..0]) == 0;
    } else {
      assert text[..2] == "D-" && AllDigits(text[2..]);
    }
  }

  /**
   * The sort key of an item. Every generated label parses (see
   * `LabelNumberOfFormat`), so the fallback for an unparsable label is never
   * used on generated items.
   */
  function Key(item: ChecklistItem): int
  {
    match LabelNumber(item.recommendedDate)
    case Some(n) => n
    case None => 0
  }

  /** A "D-" label's key is the value of its digits; a label that parses to NaN has key 0. */
  lemma KeyOfLabel(item: ChecklistItem)
    ensures LabelNumber(item.recommendedDate).None? ==> Key(item) == 0
    ensures var l := item.recommendedDate;
      |l| >= 3 && l[..2] == "D-" && AllDigits(l[2..]) ==> Key(item) == DigitsValue(l[2..])
  {
  }

  /** The key of a generated item: days from today to its target date, or 0 once past. */
  lemma KeyOfMakeItem(entry: TemplateEntry, departure: int, today: int)
    ensures var d := departure - today - entry.daysBefore;
      Key(MakeItem(entry, departure, today)) == if d < 0 then 0 else d
  {
    LabelNumberOfFormat(departure - entry.daysBefore - today);
  }

  // ---------------------------------------------------------------------
  // The stable descending sort
  // ---------------------------------------------------------------------

  // The sort is written over any element type and key function, so that
  // the proofs about it see the key as an opaque value.

  /** Keys never increase along `s`. */
  ghost predicate SortedByKeyDesc<T>(s: seq<T>, key: T -> int)
  {
    forall i, j :: 0 <= i < j < |s| ==> key(s[i]) >= key(s[j])
  }

  /** The elements of `s` whose key is `k`, in their order in `s`. */
  function WithKey<T>(s: seq<T>, key: T -> int, k: int): (r: seq<T>)
    ensures |r| <= |s|
    ensures forall x :: x in r ==> x in s && key(x) == k
  {
    if s == [] then []
    else (if key(s[0]) == k then [s[0]] else []) + WithKey(s[1..], key, k)
  }

  /**
   * Inserts `x` before the first element whose key is not larger than its
   * own, so it lands after every element with a larger key and before every
   * element with an equal key that is already in `t`.
   */
  function Insert<T(==)>(x: T, t: seq<T>, key: T -> int): (r: seq<T>)
    ensures multiset(r) == multiset(t) + multiset{x}
    ensures forall y :: y in r ==> y == x || y in t
  {
    if t == [] || key(x) >= key(t[0]) then [x] + t
    else
      assert t == [t[0]] + t[1..];
      [t[0]] + Insert(x, t[1..], key)
  }

  /** Dropping the first element of a sorted list leaves it sorted. */
  lemma SortedTail<T>(s: seq<T>, key: T -> int)
    requires s != [] && SortedByKeyDesc(s, key)
    ensures SortedByKeyDesc(s[1..], key)
  {
    var tail := s[1..];
    forall i, j | 0 <= i < j < |tail| ensures key(tail[i]) >= key(tail[j]) {
      assert tail[i] == s[i + 1] && tail[j] == s[j + 1];
    }
  }

  /** Inserting into a list sorted by key, largest first, keeps it sorted. */
  lemma {:induction false} InsertKeepsSorted<T>(x: T, t: seq<T>, key: T -> int)
    requires SortedByKeyDesc(t, key)
    ensures SortedByKeyDesc(Insert(x, t, key), key)
  {
    if t != [] && key(x) < key(t[0]) {
      var tail := t[1..];
      SortedTail(t, key);
      InsertKeepsSorted(x, tail, key);
      var rest := Insert(x, tail, key);
      forall y | y in rest ensures key(t[0]) >= key(y) {
        if y != x {
          var m :| 0 <= m < |tail| && tail[m] == y;
          assert t[m + 1] == y;
        }
      }
      var r := [t[0]] + rest;
      forall i, j | 0 <= i < j < |r| ensures key(r[i]) >= key(r[j]) {
        if i == 0 {
          assert r[j] == rest[j - 1] && rest[j - 1] in rest;
        } else {
          assert r[i] == rest[i - 1] && r[j] == rest[j - 1];
        }
      }
    }
  }

  /**
   * Insertion is stable: among the elements with `x`'s key, `x` comes
   * first, and every other key class is left as it was.
   */
  lemma {:induction false} InsertWithKey<T>(x: T, t: seq<T>, key: T -> int, k: int)
    ensures WithKey(Insert(x, t, key), key, k) == (if key(x) == k then [x] else []) + WithKey(t, key, k)
  {
    var r := Insert(x, t, key);
    if t == [] || key(x) >= key(t[0]) {
      assert r[0] == x && r[1..] == t;
    } else {
      var tail := t[1..];
      var rest := Insert(x, tail, key);
      var head := if key(t[0]) == k then [t[0]] else [];
      InsertWithKey(x, tail, key, k);
      assert r[0] == t[0] && r[1..] == rest;
      assert WithKey(r, key, k) == head + WithKey(rest, key, k);
      assert WithKey(t, key, k) == head + WithKey(tail, key, k);
      if key(x) == k {
        assert head == [];
      }
    }
  }

  /**
   * The comparator sort of the generator: descending by key, and stable,
   * as `Array.prototype.sort` is.
   */
  function SortByKeyDesc<T(==)>(s: seq<T>, key: T -> int): (r: seq<T>)
    ensures multiset(r) == multiset(s)
  {
    if s == [] then []
    else
      assert s == [s[0]] + s[1..];
      Insert(s[0], SortByKeyDesc(s[1..], key), key)
  }

  /** The sort leaves keys non-increasing. */
  lemma {:induction false} SortIsSorted<T>(s: seq<T>, key: T -> int)
    ensures SortedByKeyDesc(SortByKeyDesc(s, key), key)
  {
    if s != [] {
      SortIsSorted(s[1..], key);
      InsertKeepsSorted(s[0], SortByKeyDesc(s[1..], key), key);
    }
  }

  /** The sort is stable: the elements of every key keep their relative order. */
  lemma {:induction false} SortIsStable<T>(s: seq<T>, key: T -> int, k: int)
    ensures WithKey(SortByKeyDesc(s, key), key, k) == WithKey(s, key, k)
  {
    if s != [] {
      SortIsStable(s[1..], key, k);
      InsertWithKey(s[0], SortByKeyDesc(s[1..], key), key, k);
    }
  }

  /** When every key is `k`, selecting key `k` keeps everything. */
  lemma {:induction false} WithKeyAll<T>(s: seq<T>, key: T -> int, k: int)
    requires forall x :: x in s ==> key(x) == k
    ensures WithKey(s, key, k) == s
  {
    if s != [] {
      WithKeyAll(s[1..], key, k);
    }
  }

  /** In a sorted list that starts with key 0 and has no negative keys, every key is 0. */
  lemma ZeroHeadAllZero<T>(s: seq<T>, key: T -> int)
    requires s != [] && SortedByKeyDesc(s, key) && key(s[0]) == 0
    requires forall x :: x in s ==> key(x) >= 0
    ensures WithKey(s, key, 0) == s
  {
    forall x | x in s ensures key(x) == 0 {
      var j :| 0 <= j < |s| && s[j] == x;
      assert key(s[0]) >= key(s[j]);
    }
    WithKeyAll(s, key, 0);
  }

  /**
   * In a list sorted by key, largest first, whose keys are never negative,
   * the elements with key 0 are exactly the tail.
   */
  lemma {:induction false} ZeroKeysFormTail<T>(s: seq<T>, key: T -> int)
    requires SortedByKeyDesc(s, key)
    requires forall x :: x in s ==> key(x) >= 0
    ensures var z := |WithKey(s, key, 0)|;
      && s[|s| - z..] == WithKey(s, key, 0)
      && forall i :: 0 <= i < |s| - z ==> key(s[i]) > 0
    decreases |s|, 1
  {
    if s != [] {
      if key(s[0]) == 0 {
        ZeroHeadAllZero(s, key);
        assert s[0..] == s;
      } else {
        PositiveHeadStep(s, key);
      }
    }
  }

  /** The step of `ZeroKeysFormTail` for a list whose first key is positive. */
  lemma {:induction false} PositiveHeadStep<T>(s: seq<T>, key: T -> int)
    requires s != [] && SortedByKeyDesc(s, key) && key(s[0]) != 0
    requires forall x :: x in s ==> key(x) >= 0
    ensures var z := |WithKey(s, key, 0)|;
      && s[|s| - z..] == WithKey(s, key, 0)
      && forall i :: 0 <= i < |s| - z ==> key(s[i]) > 0
    decreases |s|, 0
  {
    var rest := s[1..];
    SortedTail(s, key);
    assert forall x :: x in rest ==> x in s;
    ZeroKeysFormTail(rest, key);
    var z := |WithKey(rest, key, 0)|;
    assert WithKey(s, key, 0) == WithKey(rest, key, 0);
    assert s[|s| - z..] == rest[|rest| - z..];
    forall i | 0 <= i < |s| - z ensures key(s[i]) > 0 {
      if i > 0 {
        assert s[i] == rest[i - 1];
      }
    }
  }

  /**
   * A sorted, stable rearrangement of a list with no negative keys ends with
   * that list's key-0 elements, in their original order.
   */
  lemma PermutedZeroKeysFormTail<T>(s: seq<T>, t: seq<T>, key: T -> int)
    requires multiset(s) == multiset(t) && SortedByKeyDesc(s, key)
    requires WithKey(s, key, 0) == WithKey(t, key, 0)
    requires forall x :: x in t ==> key(x) >= 0
    ensures var z := |WithKey(t, key, 0)|;
      && z <= |s|
      && s[|s| - z..] == WithKey(t, key, 0)
      && forall i :: 0 <= i < |s| - z ==> key(s[i]) > 0
  {
    forall x | x in s ensures key(x) >= 0 {
      assert x in multiset(s);
      assert x in multiset(t);
      assert x in t;
    }
    ZeroKeysFormTail(s, key);
    var tail := WithKey(s, key, 0);
    assert |tail| <= |s|;
  }

  /**
   * A sorted rearrangement whose list has one element with a key larger
   * than every other element's starts with that element.
   */
  lemma LargestKeyComesFirst<T>(s: seq<T>, t: seq<T>, key: T -> int, p: int)
    requires multiset(s) == multiset(t) && SortedByKeyDesc(s, key)
    requires 0 <= p < |t|
    requires forall i :: 0 <= i < |t| && i != p ==> key(t[i]) < key(t[p])
    ensures |s| > 0 && s[0] == t[p]
  {
    assert t[p] in multiset(s);
    var q :| 0 <= q < |s| && s[q] == t[p];
    assert key(s[0]) >= key(s[q]);
    assert s[0] in multiset(t);
    var i :| 0 <= i < |t| && t[i] == s[0];
    assert i == p;
  }

  /** A stable rearrangement of a list whose keys are all `k` is the list itself. */
  lemma OneKeyIsUnchanged<T>(s: seq<T>, t: seq<T>, key: T -> int, k: int)
    requires multiset(s) == multiset(t) && WithKey(s, key, k) == WithKey(t, key, k)
    requires forall x :: x in t ==> key(x) == k
    ensures s == t
  {
    forall x | x in s ensures key(x) == k {
      assert x in multiset(s);
      assert x in multiset(t);
      assert x in t;
    }
    WithKeyAll(s, key, k);
    WithKeyAll(t, key, k);
  }

  ghost predicate IdsDistinct(s: seq<ChecklistItem>)
  {
    forall i, j :: 0 <= i < j < |s| ==> s[i].id != s[j].id
  }

  /** Inserting an item whose id is new keeps the ids distinct. */
  lemma {:induction false} InsertKeepsIdsDistinct(x: ChecklistItem, t: seq<ChecklistItem>, key: ChecklistItem -> int)
    requires IdsDistinct(t)
    requires forall y :: y in t ==> y.id != x.id
    ensures IdsDistinct(Insert(x, t, key))
  {
    var r := Insert(x, t, key);
    if t == [] || key(x) >= key(t[0]) {
      forall i, j | 0 <= i < j < |r| ensures r[i].id != r[j].id {
        assert r[j] == t[j - 1] && t[j - 1] in t;
        if i > 0 {
          assert r[i] == t[i - 1];
        }
      }
    } else {
      var tail := t[1..];
      var rest := Insert(x, tail, key);
      forall i, j | 0 <= i < j < |tail| ensures tail[i].id != tail[j].id {
        assert tail[i] == t[i + 1] && tail[j] == t[j + 1];
      }
      forall y | y in tail ensures y.id != x.id {
        var m :| 0 <= m < |tail| && tail[m] == y;
        assert t[m + 1] == y;
      }
      InsertKeepsIdsDistinct(x, tail, key);
      assert r == [t[0]] + rest;
      forall i, j | 0 <= i < j < |r| ensures r[i].id != r[j].id {
        if i == 0 {
          var y := rest[j - 1];
          assert y in rest;
          if y != x {
            var m :| 0 <= m < |tail| && tail[m] == y;
            assert t[0].id != t[m + 1].id;
          } else {
            assert t[0] in t;
          }
        } else {
          assert r[i] == rest[i - 1] && r[j] == rest[j - 1];
        }
      }
    }
  }

  /** Sorting a list whose ids are distinct keeps them distinct. */
  lemma {:induction false} SortKeepsIdsDistinct(s: seq<ChecklistItem>, key: ChecklistItem -> int)
    requires IdsDistinct(s)
    ensures IdsDistinct(SortByKeyDesc(s, key))
  {
    if s != [] {
      var rest := SortByKeyDesc(s[1..], key);
      SortKeepsIdsDistinct(s[1..], key);
      forall y | y in rest ensures y.id != s[0].id {
        assert y in multiset(s[1..]);
        var m :| 0 <= m < |s[1..]| && s[1..][m] == y;
        assert s[m + 1] == y;
      }
      InsertKeepsIdsDistinct(s[0], rest, key);
    }
  }

  // ---------------------------------------------------------------------
  // generateChecklist
  // ---------------------------------------------------------------------

  /** The template mapped to items, before sorting. */
  function TemplateItems(departure: int, today: int): (items: seq<ChecklistItem>)
    ensures |items| == |Template|
    ensures forall i :: 0 <= i < |Template| ==> items[i] == MakeItem(Template[i], departure, today)
  {
    seq(|Template|, i requires 0 <= i < |Template| => MakeItem(Template[i], departure, today))
  }

  /**
   * The checklist for a departure date: one fresh, uncompleted item per
   * template entry, ordered by label number, largest first, ties in template
   * order.
   */
  function GenerateChecklist(departure: int, today: int): (items: seq<ChecklistItem>)
    ensures |items| == 19
    ensures multiset(items) == multiset(TemplateItems(departure, today))
    ensures SortedByKeyDesc(items, Key)
    ensures forall k :: WithKey(items, Key, k) == WithKey(TemplateItems(departure, today), Key, k)
    ensures forall item :: item in items ==> !item.completed
  {
    var mapped := TemplateItems(departure, today);
    SortIsSorted(mapped, Key);
    forall k ensures WithKey(SortByKeyDesc(mapped, Key), Key, k) == WithKey(mapped, Key, k) {
      SortIsStable(mapped, Key, k);
    }
    assert |SortByKeyDesc(mapped, Key)| == |multiset(mapped)| == 19;
    forall item | item in SortByKeyDesc(mapped, Key) ensures !item.completed {
      assert item in multiset(mapped);
    }
    SortByKeyDesc(mapped, Key)
  }

  // ---------------------------------------------------------------------
  // Properties of the generated list
  // ---------------------------------------------------------------------

  /** Every generated item comes from exactly one template position, with its title and category. */
  lemma GeneratedItemsComeFromTemplate(departure: int, today: int)
    ensures forall item :: item in GenerateChecklist(departure, today) ==>
      && (exists i :: 0 <= i < |Template| && item == MakeItem(Template[i], departure, today))
      && !item.completed
  {
    var mapped := TemplateItems(departure, today);
    forall item | item in GenerateChecklist(departure, today)
      ensures exists i :: 0 <= i < |Template| && item == MakeItem(Template[i], departure, today)
    {
      assert item in multiset(mapped);
      var i :| 0 <= i < |mapped| && mapped[i] == item;
    }
  }

  /** A generated id determines the title it was made from. */
  lemma TemplateIdDeterminesTitle(a: TemplateEntry, b: TemplateEntry)
    requires TemplateId(a) == TemplateId(b)
    ensures a.title == b.title
  {
    var s := TemplateId(a);
    var na, nb := NatToString(a.daysBefore), NatToString(b.daysBefore);
    assert s == na + "-" + a.title && s == nb + "-" + b.title;
    assert s[|na|] == '-' && s[|nb|] == '-';
    assert forall i :: 0 <= i < |na| ==> s[i] == na[i] && IsDigit(s[i]);
    assert forall i :: 0 <= i < |nb| ==> s[i] == nb[i] && IsDigit(s[i]);
    assert |na| == |nb|;
    assert a.title == s[|na| + 1..] == b.title;
  }

  lemma TemplateTitlesDistinct()
    ensures forall i, j :: 0 <= i < j < |Template| ==> Template[i].title != Template[j].title
  {
  }

  /** All 19 generated ids are pairwise distinct. */
  lemma GeneratedIdsDistinct(departure: int, today: int)
    ensures IdsDistinct(GenerateChecklist(departure, today))
  {
    var mapped := TemplateItems(departure, today);
    TemplateTitlesDistinct();
    forall i, j | 0 <= i < j < |mapped| ensures mapped[i].id != mapped[j].id {
      if mapped[i].id == mapped[j].id {
        TemplateIdDeterminesTitle(Template[i], Template[j]);
      }
    }
    SortKeepsIdsDistinct(mapped, Key);
  }

  /** The key of the `i`-th template item, with D the days left until departure. */
  lemma TemplateItemKey(departure: int, today: int, i: int)
    requires 0 <= i < |Template|
    ensures var d := departure - today - Template[i].daysBefore;
      Key(TemplateItems(departure, today)[i]) == if d < 0 then 0 else d
  {
    KeyOfMakeItem(Template[i], departure, today);
  }

  /** No template item has a negative key. */
  lemma TemplateKeysNonNegative(departure: int, today: int)
    ensures forall item :: item in TemplateItems(departure, today) ==> Key(item) >= 0
  {
    var mapped := TemplateItems(departure, today);
    forall item | item in mapped ensures Key(item) >= 0 {
      var i :| 0 <= i < |mapped| && mapped[i] == item;
      TemplateItemKey(departure, today, i);
    }
  }

  /**
   * Every generated item whose target date has arrived or passed ends the
   * list, in template order, and every item before them has a positive key.
   */
  lemma GeneratedZeroKeysAtEnd(departure: int, today: int)
    ensures var items := GenerateChecklist(departure, today);
      var zeros := WithKey(TemplateItems(departure, today), Key, 0);
      && |zeros| <= 19
      && items[19 - |zeros|..] == zeros
      && forall i :: 0 <= i < 19 - |zeros| ==> Key(items[i]) > 0
  {
    var items := GenerateChecklist(departure, today);
    var mapped := TemplateItems(departure, today);
    TemplateKeysNonNegative(departure, today);
    PermutedZeroKeysFormTail(items, mapped, Key);
  }

  /**
   * With at least two days to go, the final pre-departure check (one day
   * before departure) has the largest key and comes first.
   */
  lemma FinalCheckComesFirst(departure: int, today: int)
    requires departure - today >= 2
    ensures GenerateChecklist(departure, today)[0].title == FinalCheckTitle
  {
    var items := GenerateChecklist(departure, today);
    var mapped := TemplateItems(departure, today);
    TemplateFacts();
    TemplateItemKey(departure, today, 18);
    forall i | 0 <= i < |mapped| && i != 18 ensures Key(mapped[i]) < Key(mapped[18]) {
      TemplateItemKey(departure, today, i);
    }
    LargestKeyComesFirst(items, mapped, Key, 18);
  }

  /**
   * With at most one day to go, every target date has arrived, every key is
   * 0, and the list is the template in its own order.
   */
  lemma NoDaysLeftKeepsTemplateOrder(departure: int, today: int)
    requires departure - today <= 1
    ensures GenerateChecklist(departure, today) == TemplateItems(departure, today)
  {
    var items := GenerateChecklist(departure, today);
    var mapped := TemplateItems(departure, today);
    TemplateFacts();
    forall item | item in mapped ensures Key(item) == 0 {
      var i :| 0 <= i < |mapped| && mapped[i] == item;
      TemplateItemKey(departure, today, i);
    }
    OneKeyIsUnchanged(items, mapped, Key, 0);
  }

}
