/**
 * The checklist screen of components/Checklist.tsx: the list state with its
 * toggle, delete and add handlers, the effect that loads or generates the
 * list when a profile arrives, the grouping of items by category, and the
 * header label.
 */
module ChecklistView {
  import opened Types
  import opened Utils
  import Checklist

  // ---------------------------------------------------------------------
  // toggleItem / deleteItem as list functions
  // ---------------------------------------------------------------------

  /** The items in the same order, with the completed flag flipped on every item whose id is `id`. */
  function Toggled(items: seq<ChecklistItem>, id: string): (r: seq<ChecklistItem>)
    ensures |r| == |items|
    ensures forall i :: 0 <= i < |items| ==>
      && r[i].id == items[i].id && r[i].title == items[i].title
      && r[i].recommendedDate == items[i].recommendedDate && r[i].category == items[i].category
      && (r[i].completed <==> (items[i].completed <==> items[i].id != id))
  {
    seq(|items|, i requires 0 <= i < |items| =>
      if items[i].id == id then items[i].(completed := !items[i].completed) else items[i])
  }

  /** Toggling the same id twice gives back the list. */
  lemma ToggleTwice(items: seq<ChecklistItem>, id: string)
    ensures Toggled(Toggled(items, id), id) == items
  {
  }

  /** Toggling an id no item has changes nothing. */
  lemma ToggleAbsent(items: seq<ChecklistItem>, id: string)
    requires forall i :: 0 <= i < |items| ==> items[i].id != id
    ensures Toggled(items, id) == items
  {
  }

  /** The items in the same order, without those whose id is `id`. */
  function Deleted(items: seq<ChecklistItem>, id: string): (r: seq<ChecklistItem>)
    ensures |r| <= |items|
    ensures forall x :: x in r ==> x.id != id
  {
    if items == [] then []
    else (if items[0].id == id then [] else [items[0]]) + Deleted(items[1..], id)
  }

  /** Every item without that id keeps its number of occurrences. */
  lemma {:induction false} DeletedKeepsOthers(items: seq<ChecklistItem>, id: string, x: ChecklistItem)
    requires x.id != id
    ensures multiset(Deleted(items, id))[x] == multiset(items)[x]
    decreases |items|
  {
    if items != [] {
      assert items == [items[0]] + items[1..];
      DeletedKeepsOthers(items[1..], id, x);
    }
  }

  /** Deleting from a concatenation deletes from each part, so the kept items stay in order. */
  lemma {:induction false} DeleteDistributes(a: seq<ChecklistItem>, b: seq<ChecklistItem>, id: string)
    ensures Deleted(a + b, id) == Deleted(a, id) + Deleted(b, id)
    decreases |a|
  {
    if a == [] {
      assert a + b == b;
    } else {
      var ab := a + b;
      var head := if a[0].id == id then [] else [a[0]];
      assert ab[0] == a[0] && ab[1..] == a[1..] + b;
      DeleteDistributes(a[1..], b, id);
      calc {
        Deleted(ab, id);
        head + Deleted(a[1..] + b, id);
        head + (Deleted(a[1..], id) + Deleted(b, id));
        (head + Deleted(a[1..], id)) + Deleted(b, id);
        Deleted(a, id) + Deleted(b, id);
      }
    }
  }

  /** Deleting an id no item has changes nothing. */
  lemma {:induction false} DeleteAbsent(items: seq<ChecklistItem>, id: string)
    requires forall i :: 0 <= i < |items| ==> items[i].id != id
    ensures Deleted(items, id) == items
    decreases |items|
  {
    if items != [] {
      DeleteAbsent(items[1..], id);
    }
  }

  /** Deleting twice is deleting once. */
  lemma DeleteIdempotent(items: seq<ChecklistItem>, id: string)
    ensures Deleted(Deleted(items, id), id) == Deleted(items, id)
  {
    var once := Deleted(items, id);
    assert forall i :: 0 <= i < |once| ==> once[i] in once;
    DeleteAbsent(once, id);
  }

  // ---------------------------------------------------------------------
  // addItem
  // ---------------------------------------------------------------------

  /** The characters `String.prototype.trim` removes: white space and line terminators. */
  predicate IsSpace(c: char)
  {
    c == '\t' || c == '\n' || c == '\U{000B}' || c == '\U{000C}' || c == '\r' || c == ' '
    || c == '\U{00A0}' || c == '\U{1680}' || ('\U{2000}' <= c <= '\U{200A}')
    || c == '\U{2028}' || c == '\U{2029}' || c == '\U{202F}' || c == '\U{205F}'
    || c == '\U{3000}' || c == '\U{FEFF}'
  }

  /** The number of white-space characters at the start of `s`. */
  function LeadingSpace(s: string): (n: nat)
    ensures n <= |s|
    ensures forall i :: 0 <= i < n ==> IsSpace(s[i])
    ensures n < |s| ==> !IsSpace(s[n])
  {
    if s == [] || !IsSpace(s[0]) then 0 else 1 + LeadingSpace(s[1..])
  }

  /** The number of white-space characters at the end of `s`. */
  function TrailingSpace(s: string): (n: nat)
    ensures n <= |s|
    ensures forall i :: |s| - n <= i < |s| ==> IsSpace(s[i])
    ensures n < |s| ==> !IsSpace(s[|s| - 1 - n])
  {
    if s == [] || !IsSpace(s[|s| - 1]) then 0 else 1 + TrailingSpace(s[..|s| - 1])
  }

  /** `s.trim()`: the text between the leading and the trailing white space. */
  function Trim(s: string): (r: string)
    ensures r == [] <==> forall i :: 0 <= i < |s| ==> IsSpace(s[i])
    ensures r != [] ==> !IsSpace(r[0]) && !IsSpace(r[|r| - 1])
    ensures |r| <= |s|
    ensures LeadingSpace(s) + |r| <= |s| && r == s[LeadingSpace(s)..LeadingSpace(s) + |r|]
    ensures forall i :: LeadingSpace(s) + |r| <= i < |s| ==> IsSpace(s[i])
  {
    var a := LeadingSpace(s);
    var rest := s[a..];
    var b := TrailingSpace(rest);
    var r := rest[..|rest| - b];
    assert r == s[a..a + |r|];
    forall i | a + |r| <= i < |s| ensures IsSpace(s[i]) {
      assert s[i] == rest[i - a];
    }
    assert (forall i :: 0 <= i < |s| ==> IsSpace(s[i])) ==> r == [] by {
      if forall i :: 0 <= i < |s| ==> IsSpace(s[i]) {
        assert a == |s|;
      }
    }
    assert r == [] ==> a == |s|;
    assert r != [] ==> r[0] == s[a] && r[|r| - 1] == rest[|rest| - 1 - b];
    r
  }

  /** Trimming twice is trimming once. */
  lemma TrimIdempotent(s: string)
    ensures Trim(Trim(s)) == Trim(s)
  {
    var r := Trim(s);
    if r != [] {
      assert LeadingSpace(r) == 0;
      assert TrailingSpace(r) == 0;
      assert r[0..] == r;
    }
  }

  /** Text with no white space at either end is its own trim. */
  lemma TrimOfTrimmed(s: string)
    requires s != [] && !IsSpace(s[0]) && !IsSpace(s[|s| - 1])
    ensures Trim(s) == s
  {
    assert LeadingSpace(s) == 0;
    assert TrailingSpace(s) == 0;
    assert s[0..] == s;
  }

  /**
   * The label of an added item: `"D-" + Math.max(0, daysUntil)`, where the
   * day count is 0 without a profile. A profile without a departure date
   * makes the count NaN, and the label reads "D-NaN".
   */
  function AddedLabel(profile: Option<StudyProfile>, today: int): (text: string)
    ensures |text| >= 3 && text[..2] == "D-"
    ensures profile.None? ==> text == "D-0"
    ensures profile.Some? && profile.value.departureDate.None? ==> text == "D-NaN"
    ensures profile.Some? && profile.value.departureDate.Some? ==>
      var days := DaysUntil(profile.value.departureDate.value, today);
      IsDecimal(text[2..]) && ParseNat(text[2..]) == Some(if days < 0 then 0 else days)
  {
    match profile
    case None => "D-0"
    case Some(p) =>
      match p.departureDate
      case None => "D-NaN"
      case Some(d) =>
        var days := DaysUntil(d, today);
        FormatDaysUntil(if days < 0 then 0 else days)
  }

  /** An added item is never labelled "D+0", and for a date still ahead its label is the generator's label. */
  lemma AddedLabelMatchesFormat(profile: Option<StudyProfile>, today: int)
    ensures AddedLabel(profile, today) != "D+0"
    ensures (profile.Some? && profile.value.departureDate.Some?
             && DaysUntil(profile.value.departureDate.value, today) >= 0) ==>
      AddedLabel(profile, today) == FormatDaysUntil(DaysUntil(profile.value.departureDate.value, today))
  {
    var text := AddedLabel(profile, today);
    assert text[..2] == "D-";
    assert "D+0"[..2] == "D+";
  }

  /** The id of an item added at time stamp `now`. */
  function CustomId(now: int): (id: string)
    ensures |id| > 7 && id[..7] == "custom-" && IsSignedDecimal(id[7..]) && ParseInt(id[7..]) == Some(now)
  {
    IntToStringRoundTrip(now);
    assert ("custom-" + IntToString(now))[7..] == IntToString(now);
    "custom-" + IntToString(now)
  }

  /** Distinct time stamps give distinct ids. */
  lemma CustomIdInjective(a: int, b: int)
    requires a != b
    ensures CustomId(a) != CustomId(b)
  {
    var ia, ib := CustomId(a), CustomId(b);
    assert ParseInt(ia[7..]) != ParseInt(ib[7..]);
  }

  // ---------------------------------------------------------------------
  // Grouping by category
  // ---------------------------------------------------------------------

  /** The items of category `c`, in list order. */
  function InCategory(items: seq<ChecklistItem>, c: string): (r: seq<ChecklistItem>)
    ensures forall x :: x in r <==> x in items && x.category == c
    ensures |r| <= |items|
  {
    if items == [] then []
    else
      var last := items[|items| - 1];
      var init := items[..|items| - 1];
      assert items == init + [last];
      InCategory(init, c) + (if last.category == c then [last] else [])
  }

  /** Taking one more item adds it to its own category's list and to no other. */
  lemma InCategoryStep(items: seq<ChecklistItem>, i: int)
    requires 0 <= i < |items|
    ensures forall c ::
      InCategory(items[..i + 1], c) == InCategory(items[..i], c) + (if items[i].category == c then [items[i]] else [])
  {
    var prefix := items[..i + 1];
    assert prefix[..|prefix| - 1] == items[..i];
    assert prefix[|prefix| - 1] == items[i];
  }

  ghost predicate Distinct(s: seq<string>)
  {
    forall i, j :: 0 <= i < j < |s| ==> s[i] != s[j]
  }

  /**
   * `groups` holds, under every category that occurs in `items`, that
   * category's items in list order; `order` lists the categories once each.
   */
  ghost predicate Grouped(items: seq<ChecklistItem>, groups: map<string, seq<ChecklistItem>>, order: seq<string>)
  {
    && (forall c :: c in groups <==> c in order)
    && Distinct(order)
    && (forall c :: c in groups ==> groups[c] == InCategory(items, c) && groups[c] != [])
    && (forall c :: c !in groups ==> InCategory(items, c) == [])
  }

  /** The reducer's step for an item whose category has no list yet: a new list of one. */
  lemma GroupNewCategory(items: seq<ChecklistItem>, i: int, groups: map<string, seq<ChecklistItem>>, order: seq<string>)
    requires 0 <= i < |items| && Grouped(items[..i], groups, order)
    requires items[i].category !in groups
    ensures Grouped(items[..i + 1], groups[items[i].category := [items[i]]], order + [items[i].category])
  {
    var cat := items[i].category;
    var g := groups[cat := [items[i]]];
    var o := order + [cat];
    InCategoryStep(items, i);
    assert cat !in order;
    forall c ensures c in g <==> c in o {
      assert c in o <==> c in order || c == cat;
    }
    forall j, k | 0 <= j < k < |o| ensures o[j] != o[k] {
      assert o[j] == order[j] && order[j] in order;
      if k < |order| {
        assert o[k] == order[k];
      }
    }
    forall c | c in g ensures g[c] == InCategory(items[..i + 1], c) && g[c] != [] {
      if c == cat {
        assert InCategory(items[..i], c) == [];
      }
    }
    forall c | c !in g ensures InCategory(items[..i + 1], c) == [] {
      assert c != cat;
    }
  }

  /** The reducer's step for an item whose category already has a list: appended to it. */
  lemma GroupKnownCategory(items: seq<ChecklistItem>, i: int, groups: map<string, seq<ChecklistItem>>, order: seq<string>)
    requires 0 <= i < |items| && Grouped(items[..i], groups, order)
    requires items[i].category in groups
    ensures Grouped(items[..i + 1], groups[items[i].category := groups[items[i].category] + [items[i]]], order)
  {
    var cat := items[i].category;
    var g := groups[cat := groups[cat] + [items[i]]];
    InCategoryStep(items, i);
    forall c | c in g ensures g[c] == InCategory(items[..i + 1], c) && g[c] != [] {
      if c == cat {
        assert g[c] == InCategory(items[..i], c) + [items[i]];
      }
    }
  }

  /**
   * `items.reduce(...)` into a dictionary of lists: every category that
   * occurs becomes a key (`order` lists the keys in the order they were
   * first seen) and its list holds that category's items in list order.
   */
  method GroupByCategory(items: seq<ChecklistItem>) returns (groups: map<string, seq<ChecklistItem>>, order: seq<string>)
    ensures forall c :: c in groups <==> c in order
    ensures Distinct(order)
    ensures forall c :: c in groups ==> groups[c] == InCategory(items, c) && groups[c] != []
    ensures forall c :: c !in groups ==> InCategory(items, c) == []
  {
    groups := map[];
    order := [];
    var i := 0;
    while i < |items|
      invariant 0 <= i <= |items|
      invariant Grouped(items[..i], groups, order)
    {
      var item := items[i];
      if item.category !in groups {
        GroupNewCategory(items, i, groups, order);
        groups := groups[item.category := [item]];
        order := order + [item.category];
      } else {
        GroupKnownCategory(items, i, groups, order);
        groups := groups[item.category := groups[item.category] + [item]];
      }
      i := i + 1;
    }
    assert items[..i] == items;
  }

  /** Every item lies in the group of its own category and in no other. */
  lemma GroupsPartitionItems(items: seq<ChecklistItem>, groups: map<string, seq<ChecklistItem>>, x: ChecklistItem)
    requires forall c :: c in groups ==> groups[c] == InCategory(items, c)
    requires forall c :: c !in groups ==> InCategory(items, c) == []
    requires x in items
    ensures x.category in groups && x in groups[x.category]
    ensures forall c :: c in groups && x in groups[c] ==> c == x.category
  {
    assert x in InCategory(items, x.category);
  }

  // ---------------------------------------------------------------------
  // Sorting the category names
  // ---------------------------------------------------------------------

  /** `a <= b` in the code-unit order `Array.prototype.sort` uses for strings. */
  predicate StringLe(a: string, b: string)
  {
    a == [] || (b != [] && (a[0] < b[0] || (a[0] == b[0] && StringLe(a[1..], b[1..]))))
  }

  /** Of two strings, one is at most the other. */
  lemma {:induction false} StringLeTotal(a: string, b: string)
    ensures StringLe(a, b) || StringLe(b, a)
    decreases |a|
  {
    if a != [] && b != [] && a[0] == b[0] {
      StringLeTotal(a[1..], b[1..]);
    }
  }

  ghost predicate SortedStrings(s: seq<string>)
  {
    forall i :: 0 <= i < |s| - 1 ==> StringLe(s[i], s[i + 1])
  }

  function InsertString(x: string, t: seq<string>): (r: seq<string>)
    ensures multiset(r) == multiset(t) + multiset{x}
    ensures r != [] && (r[0] == x || (t != [] && r[0] == t[0]))
    ensures SortedStrings(t) ==> SortedStrings(r)
  {
    if t == [] then [x]
    else if StringLe(x, t[0]) then [x] + t
    else
      StringLeTotal(x, t[0]);
      assert t == [t[0]] + t[1..];
      var rest := InsertString(x, t[1..]);
      assert SortedStrings(t) ==> SortedStrings(t[1..]) by {
        if SortedStrings(t) {
          forall i | 0 <= i < |t[1..]| - 1 ensures StringLe(t[1..][i], t[1..][i + 1]) {
            assert t[1..][i] == t[i + 1] && t[1..][i + 1] == t[i + 2];
          }
        }
      }
      [t[0]] + rest
  }

  /** `Object.keys(groupedItems).sort()`: the category names in ascending order. */
  function SortStrings(s: seq<string>): (r: seq<string>)
    ensures multiset(r) == multiset(s)
    ensures SortedStrings(r)
  {
    if s == [] then []
    else
      assert s == [s[0]] + s[1..];
      InsertString(s[0], SortStrings(s[1..]))
  }

  /** A list with no repeats is still without repeats after reordering. */
  lemma {:induction false} PermutationKeepsDistinct(a: seq<string>, b: seq<string>)
    requires multiset(a) == multiset(b) && Distinct(a)
    ensures Distinct(b)
  {
    forall i, j | 0 <= i < j < |b| ensures b[i] != b[j] {
      if b[i] == b[j] {
        var x := b[i];
        assert b == b[..j] + b[j..];
        assert x in b[..j] && x in b[j..];
        assert multiset(b)[x] >= 2;
        AtMostOnce(a, x);
        assert false;
      }
    }
  }

  lemma {:induction false} AtMostOnce(a: seq<string>, x: string)
    requires Distinct(a)
    ensures multiset(a)[x] <= 1
    decreases |a|
  {
    if a != [] {
      var init := a[..|a| - 1];
      assert a == init + [a[|a| - 1]];
      assert Distinct(init);
      AtMostOnce(init, x);
      if a[|a| - 1] == x {
        assert x !in init;
      }
    }
  }

  /** The headings of the grouped view: every category once, in ascending order. */
  method Categories(items: seq<ChecklistItem>) returns (groups: map<string, seq<ChecklistItem>>, categories: seq<string>)
    ensures forall c :: c in groups <==> c in categories
    ensures forall c :: c in groups ==> groups[c] == InCategory(items, c)
    ensures SortedStrings(categories) && Distinct(categories)
    ensures forall x :: x in items ==> x.category in categories
  {
    var order;
    groups, order := GroupByCategory(items);
    categories := SortStrings(order);
    PermutationKeepsDistinct(order, categories);
    assert forall c :: c in order <==> c in multiset(order);
    assert forall c :: c in categories <==> c in multiset(categories);
    forall x | x in items ensures x.category in categories {
      assert x in InCategory(items, x.category);
    }
  }

  // ---------------------------------------------------------------------
  // Header
  // ---------------------------------------------------------------------

  /** The header's countdown: "D-n" while the departure day is ahead or today, "D+0" after it. */
  function HeaderLabel(departure: int, today: int): (text: string)
    ensures DaysUntil(departure, today) < 0 ==> text == "D+0"
    ensures var days := DaysUntil(departure, today);
      days >= 0 ==> |text| >= 3 && text[..2] == "D-" && IsDecimal(text[2..]) && ParseNat(text[2..]) == Some(days)
  {
    var days := DaysUntil(departure, today);
    if days >= 0 then
      var digits := NatToString(days);
      NatToStringRoundTrip(days);
      assert ("D-" + digits)[2..] == digits;
      "D-" + digits
    else "D+0"
  }

  /** The header writes the same label as `formatDaysUntil`. */
  lemma HeaderLabelIsFormat(departure: int, today: int)
    ensures HeaderLabel(departure, today) == FormatDaysUntil(DaysUntil(departure, today))
  {
  }

  // ---------------------------------------------------------------------
  // The component state
  // ---------------------------------------------------------------------

  /** The component's state: the list and the two fields of the add form. */
  class ChecklistState {
    var items: seq<ChecklistItem>
    var newItemTitle: string
    var newItemCategory: string

    constructor ()
      ensures items == [] && newItemTitle == "" && newItemCategory == "기타"
    {
      items := [];
      newItemTitle := "";
      newItemCategory := "기타";
    }

    /**
     * The effect run when the profile changes: with a departure date, a
     * non-empty stored list is shown as it is and an empty one is replaced
     * by a freshly generated list; otherwise nothing changes.
     */
    method LoadOrGenerate(profile: Option<StudyProfile>, stored: seq<ChecklistItem>, today: int)
      modifies this
      ensures profile.Some? && profile.value.departureDate.Some? && stored == [] ==>
        items == Checklist.GenerateChecklist(profile.value.departureDate.value, today)
      ensures profile.Some? && profile.value.departureDate.Some? && stored != [] ==> items == stored
      ensures profile.None? || profile.value.departureDate.None? ==> items == old(items)
      ensures newItemTitle == old(newItemTitle) && newItemCategory == old(newItemCategory)
    {
      if profile.Some? && profile.value.departureDate.Some? {
        if stored == [] {
          items := Checklist.GenerateChecklist(profile.value.departureDate.value, today);
        } else {
          items := stored;
        }
      }
    }

    /** `toggleItem(id)`: flips the completed flag of the items with this id. */
    method ToggleItem(id: string)
      modifies this
      ensures items == Toggled(old(items), id)
      ensures newItemTitle == old(newItemTitle) && newItemCategory == old(newItemCategory)
    {
      items := Toggled(items, id);
    }

    /** `deleteItem(id)`: removes the items with this id. */
    method DeleteItem(id: string)
      modifies this
      ensures items == Deleted(old(items), id)
      ensures newItemTitle == old(newItemTitle) && newItemCategory == old(newItemCategory)
    {
      items := Deleted(items, id);
    }

    /** The title input's change handler. */
    method SetNewItemTitle(title: string)
      modifies this
      ensures newItemTitle == title
      ensures items == old(items) && newItemCategory == old(newItemCategory)
    {
      newItemTitle := title;
    }

    /** The category select's change handler. */
    method SetNewItemCategory(category: string)
      modifies this
      ensures newItemCategory == category
      ensures items == old(items) && newItemTitle == old(newItemTitle)
    {
      newItemCategory := category;
    }

    /**
     * `addItem()` at time stamp `now`: a title that is blank once trimmed
     * changes nothing; otherwise one unchecked item with the trimmed title,
     * the selected category and the label `AddedLabel` is appended and the
     * title field is cleared.
     */
    method AddItem(profile: Option<StudyProfile>, today: int, now: int)
      modifies this
      ensures Trim(old(newItemTitle)) == [] ==>
        items == old(items) && newItemTitle == old(newItemTitle)
      ensures Trim(old(newItemTitle)) != [] ==>
        && items == old(items) + [ChecklistItem(CustomId(now), Trim(old(newItemTitle)),
                                                AddedLabel(profile, today), false, newItemCategory)]
        && newItemTitle == ""
      ensures newItemCategory == old(newItemCategory)
    {
      var title := Trim(newItemTitle);
      if title == [] {
        return;
      }
      var item := ChecklistItem(CustomId(now), title, AddedLabel(profile, today), false, newItemCategory);
      items := items + [item];
      newItemTitle := "";
    }
  }
}
