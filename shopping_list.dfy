/** The shopping list of backend/api/views.py `download_shopping_cart`: the
    ingredient rows of the recipes in a user's cart, grouped by ingredient name
    and unit with their amounts summed, and the text document listing them. */
module ShoppingList {
  import opened Text
  import opened UserModels
  import opened RecipeModels
  import opened Store

  // ----- grouping and summing -----

  /** A group of the aggregation: `ingredient__name`, `ingredient__measurement_unit`. */
  datatype Key = Key(name: string, unit: string)

  /** One aggregated value: a key and an amount. */
  datatype Entry = Entry(key: Key, amount: int)

  function KeyOf(t: Tables, ri: RecipeIngredient): Key
    requires ri.ingredient in t.ingredients
  {
    Key(t.ingredients[ri.ingredient].name, t.ingredients[ri.ingredient].measurementUnit)
  }

  /** `RecipeIngredient.objects.filter(recipe__shopping_cart__user=user)`: the
      rows of recipes in the user's cart, joined with their ingredient. */
  function CartRows(t: Tables, user: UserId): (rows: seq<RecipeIngredient>)
    ensures forall ri :: ri in rows <==>
              ri in t.recipeIngredients && UserRecipe(user, ri.recipe) in t.cart && ri.ingredient in t.ingredients
  {
    Filter(t.recipeIngredients,
           (ri: RecipeIngredient) => UserRecipe(user, ri.recipe) in t.cart && ri.ingredient in t.ingredients)
  }

  /** Each joined row as its group key and its amount, in row order. */
  function CartEntries(t: Tables, user: UserId): (es: seq<Entry>)
    ensures |es| == |CartRows(t, user)|
  {
    var rows := CartRows(t, user);
    seq(|rows|, i requires 0 <= i < |rows| => Entry(KeyOf(t, rows[i]), rows[i].amount))
  }

  /** The sum of the amounts of the entries under `k`: what `Sum('amount')`
      computes for that group. */
  function SumFor(es: seq<Entry>, k: Key): int {
    if es == [] then 0
    else (if es[0].key == k then es[0].amount else 0) + SumFor(es[1..], k)
  }

  function Keys(es: seq<Entry>): set<Key> {
    set e | e in es :: e.key
  }

  ghost predicate DistinctKeys(groups: seq<Entry>) {
    forall i, j :: 0 <= i < j < |groups| ==> groups[i].key != groups[j].key
  }

  /** Adds one entry to the groups: to the group of its key when there is one,
      as a new last group otherwise. */
  function AddEntry(groups: seq<Entry>, e: Entry): seq<Entry> {
    if groups == [] then [e]
    else if groups[0].key == e.key then [Entry(e.key, groups[0].amount + e.amount)] + groups[1..]
    else [groups[0]] + AddEntry(groups[1..], e)
  }

  /** `.values(name, unit).annotate(amount=Sum('amount'))`: the groups in the
      order their keys first occur. */
  function Aggregate(es: seq<Entry>): seq<Entry> {
    if es == [] then [] else AddEntry(Aggregate(es[..|es| - 1]), es[|es| - 1])
  }

  lemma {:induction false} SumForSnoc(es: seq<Entry>, e: Entry, k: Key)
    ensures SumFor(es + [e], k) == SumFor(es, k) + (if e.key == k then e.amount else 0)
  {
    if es != [] {
      assert (es + [e])[1..] == es[1..] + [e];
      SumForSnoc(es[1..], e, k);
    }
  }

  lemma {:induction false} SumForAbsent(es: seq<Entry>, k: Key)
    requires k !in Keys(es)
    ensures SumFor(es, k) == 0
  {
    if es != [] {
      assert es[0] in es;
      assert Keys(es[1..]) <= Keys(es) by {
        forall x | x in Keys(es[1..]) ensures x in Keys(es) {
          var e :| e in es[1..] && e.key == x;
          assert e in es;
        }
      }
      SumForAbsent(es[1..], k);
    }
  }

  /** The keys of a non-empty list of groups, from its head and its tail. */
  lemma ConsKeys(groups: seq<Entry>)
    requires groups != []
    ensures Keys(groups) == {groups[0].key} + Keys(groups[1..])
    ensures DistinctKeys(groups) <==> groups[0].key !in Keys(groups[1..]) && DistinctKeys(groups[1..])
  {
    var rest := groups[1..];
    assert groups == [groups[0]] + rest;
    if groups[0].key in Keys(rest) {
      var x :| x in rest && x.key == groups[0].key;
      var j :| 0 <= j < |rest| && rest[j] == x;
      assert groups[j + 1] == x;
    }
    if DistinctKeys(groups) {
      forall i, j | 0 <= i < j < |rest| ensures rest[i].key != rest[j].key {
        assert rest[i] == groups[i + 1] && rest[j] == groups[j + 1];
      }
    }
    if groups[0].key !in Keys(rest) && DistinctKeys(rest) {
      forall i, j | 0 <= i < j < |groups| ensures groups[i].key != groups[j].key {
        assert groups[j] == rest[j - 1] && groups[j] in rest;
        if i > 0 {
          assert groups[i] == rest[i - 1];
        }
      }
    }
  }

  lemma {:induction false} AddEntryFacts(groups: seq<Entry>, e: Entry)
    requires DistinctKeys(groups)
    ensures DistinctKeys(AddEntry(groups, e))
    ensures Keys(AddEntry(groups, e)) == Keys(groups) + {e.key}
    ensures forall k :: SumFor(AddEntry(groups, e), k) == SumFor(groups, k) + (if k == e.key then e.amount else 0)
  {
    var r := AddEntry(groups, e);
    if groups == [] {
      assert Keys(r) == {e.key} by { assert e in r; }
    } else {
      var rest := groups[1..];
      ConsKeys(groups);
      ConsKeys(r);
      if groups[0].key == e.key {
        assert r[1..] == rest;
      } else {
        AddEntryFacts(rest, e);
        assert r[1..] == AddEntry(rest, e);
      }
    }
  }

  /** The groups have distinct keys, exactly the keys of the entries, and each
      group's amount adds up every entry under its key. */
  lemma {:induction false} AggregateFacts(es: seq<Entry>)
    ensures DistinctKeys(Aggregate(es))
    ensures Keys(Aggregate(es)) == Keys(es)
    ensures forall k :: SumFor(Aggregate(es), k) == SumFor(es, k)
    decreases |es|
  {
    if es != [] {
      var front := es[..|es| - 1];
      var last := es[|es| - 1];
      assert es == front + [last];
      AggregateFacts(front);
      AddEntryFacts(Aggregate(front), last);
      forall k ensures SumFor(es, k) == SumFor(front, k) + (if last.key == k then last.amount else 0) {
        SumForSnoc(front, last, k);
      }
      assert Keys(es) == Keys(front) + {last.key};
    }
  }

  /** Among groups with distinct keys, the sum under a group's key is that
      group's amount. */
  lemma {:induction false} SumForDistinct(groups: seq<Entry>, i: nat)
    requires DistinctKeys(groups) && i < |groups|
    ensures SumFor(groups, groups[i].key) == groups[i].amount
  {
    var rest := groups[1..];
    if i == 0 {
      assert groups[0].key !in Keys(rest) by {
        forall x | x in rest ensures x.key != groups[0].key {
          var j :| 0 <= j < |rest| && rest[j] == x;
          assert x == groups[j + 1];
        }
      }
      SumForAbsent(rest, groups[0].key);
    } else {
      assert DistinctKeys(rest) by {
        forall a, b | 0 <= a < b < |rest| ensures rest[a].key != rest[b].key {
          assert rest[a] == groups[a + 1] && rest[b] == groups[b + 1];
        }
      }
      assert rest[i - 1] == groups[i];
      SumForDistinct(rest, i - 1);
    }
  }

  /** The shopping list: one group per distinct (name, unit) among the entries,
      whose amount is the sum of the entries' amounts under that key; no groups
      exactly when there are no entries. */
  lemma ShoppingListTotals(es: seq<Entry>)
    ensures var groups := Aggregate(es);
      && DistinctKeys(groups)
      && (forall k :: k in Keys(groups) <==> k in Keys(es))
      && (forall i :: 0 <= i < |groups| ==> groups[i].amount == SumFor(es, groups[i].key))
      && (groups == [] <==> es == [])
  {
    var groups := Aggregate(es);
    AggregateFacts(es);
    forall i | 0 <= i < |groups| ensures groups[i].amount == SumFor(es, groups[i].key) {
      SumForDistinct(groups, i);
    }
    if es != [] {
      assert es[0].key in Keys(es);
    }
  }

  /** With every amount at least one, every key present sums to at least one. */
  lemma {:induction false} SumForPositive(es: seq<Entry>, k: Key)
    requires forall i :: 0 <= i < |es| ==> es[i].amount >= 1
    requires k in Keys(es)
    ensures SumFor(es, k) >= 1
  {
    var rest := es[1..];
    assert forall i :: 0 <= i < |rest| ==> rest[i].amount >= 1 by {
      forall i | 0 <= i < |rest| ensures rest[i].amount >= 1 {
        assert rest[i] == es[i + 1];
      }
    }
    if es[0].key == k {
      SumForNonNegative(rest, k);
    } else {
      var e :| e in es && e.key == k;
      var j :| 0 <= j < |es| && es[j] == e;
      assert rest[j - 1] == e;
      SumForPositive(rest, k);
    }
  }

  lemma {:induction false} SumForNonNegative(es: seq<Entry>, k: Key)
    requires forall i :: 0 <= i < |es| ==> es[i].amount >= 1
    ensures SumFor(es, k) >= 0
  {
    if es != [] {
      var rest := es[1..];
      assert forall i :: 0 <= i < |rest| ==> rest[i].amount >= 1 by {
        forall i | 0 <= i < |rest| ensures rest[i].amount >= 1 {
          assert rest[i] == es[i + 1];
        }
      }
      SumForNonNegative(rest, k);
    }
  }

  /** In a consistent database every group of a user's list totals at least one,
      and the list is empty exactly when no recipe in the cart has a row. */
  lemma CartTotalsPositive(t: Tables, user: UserId)
    requires Consistent(t)
    ensures var groups := Aggregate(CartEntries(t, user));
      && (forall i :: 0 <= i < |groups| ==> groups[i].amount >= 1)
      && (groups == [] <==> forall ri :: ri in t.recipeIngredients ==> UserRecipe(user, ri.recipe) !in t.cart)
  {
    var es := CartEntries(t, user);
    var groups := Aggregate(es);
    ShoppingListTotals(es);
    CartEntriesPositive(t, user);
    forall i | 0 <= i < |groups| ensures groups[i].amount >= 1 {
      assert groups[i] in groups;
      SumForPositive(es, groups[i].key);
    }
    CartRowsEmpty(t, user);
  }

  /** Every joined row of a consistent database carries an amount of at least one. */
  lemma CartEntriesPositive(t: Tables, user: UserId)
    requires Consistent(t)
    ensures var es := CartEntries(t, user); forall i :: 0 <= i < |es| ==> es[i].amount >= 1
  {
    var es := CartEntries(t, user);
    var rows := CartRows(t, user);
    forall i | 0 <= i < |es| ensures es[i].amount >= 1 {
      assert rows[i] in t.recipeIngredients;
    }
  }

  /** No row is joined exactly when no recipe in the cart has a row. */
  lemma CartRowsEmpty(t: Tables, user: UserId)
    requires Consistent(t)
    ensures CartRows(t, user) == [] <==> forall ri :: ri in t.recipeIngredients ==> UserRecipe(user, ri.recipe) !in t.cart
  {
    if exists ri :: ri in t.recipeIngredients && UserRecipe(user, ri.recipe) in t.cart {
      var ri :| ri in t.recipeIngredients && UserRecipe(user, ri.recipe) in t.cart;
      assert ri.ingredient in t.ingredients;
      assert ri in CartRows(t, user);
    }
    if CartRows(t, user) != [] {
      assert CartRows(t, user)[0] in CartRows(t, user);
    }
  }

  // ----- the document -----

  /** `%Y-%m-%d` of a calendar date. */
  datatype Date = Date(year: nat, month: nat, day: nat)

  ghost predicate ValidDate(d: Date) {
    1 <= d.month <= 12 && 1 <= d.day <= 31
  }

  /** A number below 100 on two digits, with a leading zero. */
  function TwoDigits(n: nat): (s: string)
    requires n < 100
    ensures |s| == 2 && IsDigit(s[0]) && IsDigit(s[1]) && ParseNat(s) == n
  {
    var s := [DigitChar(n / 10), DigitChar(n % 10)];
    assert s[..1] == [s[0]] && s[..1][..0] == [];
    assert ParseNat(s[..1]) == n / 10;
    s
  }

  /** The date as `strftime('%Y-%m-%d')` writes it. */
  function DateText(d: Date): string
    requires ValidDate(d)
  {
    NatToString(d.year) + "-" + TwoDigits(d.month) + "-" + TwoDigits(d.day)
  }

  /** The year, month and day can be read back from the written date. */
  lemma DateTextReadsBack(d: Date)
    requires ValidDate(d)
    ensures var s := DateText(d);
      && |s| >= 7 && s[|s| - 6] == '-' && s[|s| - 3] == '-'
      && (forall i :: 0 <= i < |s| - 6 ==> IsDigit(s[i]))
      && ParseNat(s[..|s| - 6]) == d.year
      && ParseNat(s[|s| - 5..|s| - 3]) == d.month
      && ParseNat(s[|s| - 2..]) == d.day
  {
    var s := DateText(d);
    var y := NatToString(d.year);
    assert s[..|s| - 6] == y;
    assert s[|s| - 5..|s| - 3] == TwoDigits(d.month);
    assert s[|s| - 2..] == TwoDigits(d.day);
    ParseNatToString(d.year);
  }

  const EmptyListText: string := "Ваш список покупок пуст."

  /** One line of the list: `- {name} ({unit}) - {amount}`. */
  function ItemLine(g: Entry): string {
    "- " + g.key.name + " (" + g.key.unit + ") - " + FloatRepr(g.amount)
  }

  function ItemLines(groups: seq<Entry>): (lines: seq<string>)
    ensures |lines| == |groups|
  {
    seq(|groups|, i requires 0 <= i < |groups| => ItemLine(groups[i]))
  }

  function HeaderLine(fullName: string): string {
    "Список покупок для: " + fullName
  }

  function DateLine(today: Date): string
    requires ValidDate(today)
  {
    "Дата: " + DateText(today)
  }

  function FooterLine(today: Date): string {
    "Foodgram (" + NatToString(today.year) + ")"
  }

  /** The document: header, date, the item lines joined by newlines, footer. */
  function ShoppingListText(fullName: string, today: Date, groups: seq<Entry>): string
    requires ValidDate(today)
  {
    HeaderLine(fullName) + "\n\n" + DateLine(today) + "\n\n" + Join(ItemLines(groups), "\n") + "\n\n" + FooterLine(today)
  }

  /** `{username}_shopping_list.txt` */
  function FileName(u: User): string {
    u.username + "_shopping_list.txt"
  }

  /** An item line names its group and ends with its amount, which reads back
      as a number when it is not negative. */
  lemma ItemLineShowsGroup(g: Entry)
    ensures StartsWith(ItemLine(g), "- " + g.key.name + " (" + g.key.unit + ") - ")
    ensures LastPart(ItemLine(g), ' ') == FloatRepr(g.amount)
    ensures g.amount >= 0 ==> var a := LastPart(ItemLine(g), ' ');
              ParseNat(a[..|a| - 2]) == g.amount
  {
    var front := "- " + g.key.name + " (" + g.key.unit + ")";
    var line := ItemLine(g);
    assert line == front + [' '] + "- " + FloatRepr(g.amount);
    assert line == (front + [' '] + "-") + [' '] + FloatRepr(g.amount);
    LastPartAfter(front + [' '] + "-", ' ', FloatRepr(g.amount));
    if g.amount >= 0 {
      FloatReprReadsBack(g.amount);
    }
  }

  /** The lines of the document, in order. */
  function DocumentLines(fullName: string, today: Date, groups: seq<Entry>): seq<string>
    requires ValidDate(today)
  {
    [HeaderLine(fullName), "", DateLine(today), ""] + ItemLines(groups) + ["", FooterLine(today)]
  }

  /** The layout of the document, for any header, date, items and footer:
      blank lines are empty pieces between newlines. */
  lemma LayoutIsJoin(h: string, d: string, items: seq<string>, f: string)
    requires |items| >= 1
    ensures Join([h, "", d, ""] + items + ["", f], "\n") ==
              h + "\n\n" + d + "\n\n" + Join(items, "\n") + "\n\n" + f
  {
    var head := [h, "", d, ""];
    var foot := ["", f];
    HeadIsJoin(h, d);
    FootIsJoin(f);
    JoinAppend(head, items, "\n");
    JoinAppend(head + items, foot, "\n");
    LayoutRegroup(h, d, Join(items, "\n"), f);
  }

  lemma HeadIsJoin(h: string, d: string)
    ensures Join([h, "", d, ""], "\n") == h + "\n\n" + d + "\n"
  {
    var sep := "\n";
    JoinCons(d, [""], sep);
    assert [d, ""] == [d] + [""];
    JoinCons("", [d, ""], sep);
    assert ["", d, ""] == [""] + [d, ""];
    JoinCons(h, ["", d, ""], sep);
    assert [h, "", d, ""] == [h] + ["", d, ""];
  }

  lemma FootIsJoin(f: string)
    ensures Join(["", f], "\n") == "\n" + f
  {
    JoinCons("", [f], "\n");
    assert ["", f] == [""] + [f];
  }

  lemma LayoutRegroup(h: string, d: string, body: string, f: string)
    ensures ((h + "\n\n" + d + "\n") + "\n" + body) + "\n" + ("\n" + f) ==
              h + "\n\n" + d + "\n\n" + body + "\n\n" + f
  {
    assert "\n" + "\n" == "\n\n";
  }

  lemma DocumentIsJoin(fullName: string, today: Date, groups: seq<Entry>)
    requires ValidDate(today) && groups != []
    ensures Join(DocumentLines(fullName, today, groups), "\n") == ShoppingListText(fullName, today, groups)
  {
    LayoutIsJoin(HeaderLine(fullName), DateLine(today), ItemLines(groups), FooterLine(today));
  }

  /** The printed date is digits and dashes. */
  lemma DateLineOneLine(today: Date)
    requires ValidDate(today)
    ensures '\n' !in DateLine(today)
  {
    DateTextReadsBack(today);
    var d := DateText(today);
    forall i | 0 <= i < |d| ensures d[i] != '\n' {
      if i < |d| - 6 {
        assert IsDigit(d[i]);
      }
    }
    assert DateLine(today) == "Дата: " + d;
  }

  lemma DocumentLinesOneLineEach(fullName: string, today: Date, groups: seq<Entry>)
    requires ValidDate(today)
    requires '\n' !in fullName
    requires forall i :: 0 <= i < |groups| ==> '\n' !in groups[i].key.name && '\n' !in groups[i].key.unit
    ensures forall k :: 0 <= k < |DocumentLines(fullName, today, groups)| ==>
              '\n' !in DocumentLines(fullName, today, groups)[k]
  {
    var lines := DocumentLines(fullName, today, groups);
    var items := ItemLines(groups);
    DateLineOneLine(today);
    forall k | 0 <= k < |lines| ensures '\n' !in lines[k] {
      if 4 <= k < 4 + |items| {
        assert lines[k] == ItemLine(groups[k - 4]);
        ItemLineOneLine(groups[k - 4]);
      }
    }
  }

  lemma ItemLineOneLine(g: Entry)
    requires '\n' !in g.key.name && '\n' !in g.key.unit
    ensures '\n' !in ItemLine(g)
  {
  }

  /** When no name, unit or user name holds a newline, the lines of the
      document are the header, a blank line, the date, a blank line, one line
      per group in order, a blank line and the footer. */
  lemma ShoppingListLines(fullName: string, today: Date, groups: seq<Entry>)
    requires ValidDate(today) && groups != []
    requires '\n' !in fullName
    requires forall i :: 0 <= i < |groups| ==> '\n' !in groups[i].key.name && '\n' !in groups[i].key.unit
    ensures Split(ShoppingListText(fullName, today, groups), "\n") ==
              [HeaderLine(fullName), "", DateLine(today), ""] + ItemLines(groups) + ["", FooterLine(today)]
  {
    DocumentIsJoin(fullName, today, groups);
    DocumentLinesOneLineEach(fullName, today, groups);
    SplitJoin(DocumentLines(fullName, today, groups), '\n');
  }
}
