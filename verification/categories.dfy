/**
 * The Categorizer (`categorize`): a credit is always "Income / Transfer
 * In"; anything else takes the label of the first rule of an ordered
 * keyword table whose keywords occur in the lower-cased description, and
 * "Other Expense" when none does.
 */
module Categories {
  import opened Text

  /** The direction of a transaction: its `type` ("CREDIT", "DEBIT" or "UNKNOWN"). */
  datatype Direction = Credit | Debit | Unknown

  const IncomeLabel: string := "Income / Transfer In"
  const OtherLabel: string := "Other Expense"

  /** The keyword table, in the order its rules are tried. */
  const Rules: seq<(string, seq<string>)> := [
    ("Recharge", ["airtel", "jio", "vi", "vodafone", "bsnl"]),
    ("Food & Dining", ["zomato", "swiggy", "pizza", "restaurant", "hotel"]),
    ("Fuel", ["petrol", "diesel", "fuel"]),
    ("Shopping", ["amazon", "flipkart", "myntra", "store"]),
    ("Groceries", ["dmart", "bigbasket", "zepto", "instamart"]),
    ("Travel", ["uber", "ola", "rapido", "irctc"]),
    ("Entertainment", ["netflix", "prime", "hotstar"]),
    ("Utilities", ["electricity", "water", "gas", "bill"]),
    ("Healthcare", ["hospital", "pharmacy", "medical"]),
    ("Banking & Finance", ["emi", "loan", "insurance"]),
    ("Transfer Out", ["paid to"])
  ]

  /** Every label `categorize` can return. */
  const Labels: set<string> := {
    "Recharge", "Food & Dining", "Fuel", "Shopping", "Groceries", "Travel", "Entertainment",
    "Utilities", "Healthcare", "Banking & Finance", "Transfer Out", OtherLabel, IncomeLabel
  }

  /** Rule `k` fires on the lower-cased description `d`. */
  predicate Fires(d: string, k: nat)
    requires k < |Rules|
  {
    ContainsAny(d, Rules[k].1)
  }

  /** The first rule at or after `k` that fires on `d`; `|Rules|` when none does. */
  function FiringFrom(d: string, k: nat): (m: nat)
    requires k <= |Rules|
    ensures k <= m <= |Rules|
    ensures m < |Rules| ==> Fires(d, m)
    ensures forall j :: k <= j < m ==> !Fires(d, j)
    decreases |Rules| - k
  {
    if k == |Rules| || Fires(d, k) then k else FiringFrom(d, k + 1)
  }

  /** The label of the first rule at or after `k` that fires, else "Other Expense". */
  function FirstRuleFrom(d: string, k: nat): (chosen: string)
    requires k <= |Rules|
    ensures chosen in Labels
    ensures chosen == OtherLabel <==> forall j :: k <= j < |Rules| ==> !Fires(d, j)
  {
    var m := FiringFrom(d, k);
    if m == |Rules| then OtherLabel else Rules[m].0
  }

  /** `categorize(desc, txn_type)`. */
  function Categorize(desc: string, direction: Direction): (category: string)
    ensures category in Labels
    ensures direction == Credit ==> category == IncomeLabel
    ensures direction != Credit ==> category != IncomeLabel
    ensures direction != Credit ==> (category == OtherLabel <==> forall j :: 0 <= j < |Rules| ==> !Fires(Lower(desc), j))
  {
    if direction == Credit then IncomeLabel else FirstRuleFrom(Lower(desc), 0)
  }

  /**
   * A debit or unknown transaction gets the label of rule `k` exactly when
   * rule `k` fires and no earlier rule does: the first matching rule wins.
   */
  lemma CategorizeFirstMatch(desc: string, direction: Direction, k: nat)
    requires direction != Credit && k < |Rules|
    ensures Categorize(desc, direction) == Rules[k].0
        <==> Fires(Lower(desc), k) && forall j :: 0 <= j < k ==> !Fires(Lower(desc), j)
  {
    var d := Lower(desc);
    var m := FiringFrom(d, 0);
    if Fires(d, k) && forall j :: 0 <= j < k ==> !Fires(d, j) {
      assert m == k;
    } else if Categorize(desc, direction) == Rules[k].0 {
      assert m < |Rules| && Rules[m].0 == Rules[k].0;
      LabelsDistinct(m, k);
    }
  }

  lemma LabelsDistinct(m: nat, k: nat)
    requires m < |Rules| && k < |Rules| && Rules[m].0 == Rules[k].0
    ensures m == k
  {
  }

  /** A keyword found at a known position makes its rule fire. */
  lemma FiresAt(d: string, k: nat, w: nat, i: nat)
    requires k < |Rules| && w < |Rules[k].1| && LitAt(d, i, Rules[k].1[w])
    ensures Fires(d, k)
  {
    ContainsAt(d, Rules[k].1[w], i);
  }

  /**
   * Shopping's "store" is tried before Healthcare's "medical" and
   * "pharmacy": a medical store that matches none of the first three rules
   * is filed under Shopping, whatever else its description says.
   */
  lemma StoreIsShopping(desc: string, direction: Direction, i: nat)
    requires direction != Credit && LitAt(Lower(desc), i, "store")
    requires forall j :: 0 <= j < 3 ==> !Fires(Lower(desc), j)
    ensures Categorize(desc, direction) == "Shopping"
  {
    FiresAt(Lower(desc), 3, 3, i);
    CategorizeFirstMatch(desc, direction, 3);
  }

  /** The keyword "vi" is a plain substring test: any description containing those letters is a Recharge. */
  lemma ViIsRecharge(desc: string, direction: Direction, i: nat)
    requires direction != Credit && LitAt(Lower(desc), i, "vi")
    ensures Categorize(desc, direction) == "Recharge"
  {
    FiresAt(Lower(desc), 0, 2, i);
    CategorizeFirstMatch(desc, direction, 0);
  }
}
