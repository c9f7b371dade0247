/** The application state behind `ExpenseProvider`: expense records, accounts and categories,
    each an id-keyed list, and the pure reducer `expenseReducer` that every change goes through.
    Ids are `Date.now()` strings in the application, so they may collide and nothing here relies on their being unique. */
module ExpenseStore {
  import opened Text
  import opened Dates

  datatype EntryType = ExpenseEntry | IncomeEntry

  datatype Expense = Expense(
    id: string,
    amount: real,
    currency: string,
    description: string,
    category: string,
    subcategory: Option<string>,
    account: string,
    date: Moment,
    entryType: EntryType,
    tags: Option<seq<string>>,
    location: Option<string>,
    receipt: Option<string>,
    createdAt: Moment,
    updatedAt: Moment)

  datatype AccountType = Cash | CreditCard | BankAccount | DigitalWallet

  datatype Account = Account(
    id: string,
    name: string,
    accountType: AccountType,
    balance: real,
    currency: string,
    bankName: Option<string>,
    cardNumber: Option<string>,
    color: string,
    isActive: bool)

  datatype Category = Category(
    id: string,
    name: string,
    icon: string,
    color: string,
    subcategories: Option<seq<string>>,
    isCustom: bool)

  datatype State = State(
    expenses: seq<Expense>,
    accounts: seq<Account>,
    categories: seq<Category>,
    isLoading: bool,
    error: Option<string>)

  /** The actions of `ExpenseAction`; `Unrecognised` stands for any other action object, which
      the reducer's `default` branch receives. */
  datatype Action =
    | SetLoading(loading: bool)
    | SetError(message: Option<string>)
    | AddExpense(expense: Expense)
    | UpdateExpense(expense: Expense)
    | DeleteExpense(expenseId: string)
    | SetExpenses(expenseList: seq<Expense>)
    | AddAccount(account: Account)
    | UpdateAccount(account: Account)
    | DeleteAccount(accountId: string)
    | SetAccounts(accountList: seq<Account>)
    | AddCategory(category: Category)
    | UpdateCategory(category: Category)
    | DeleteCategory(categoryId: string)
    | SetCategories(categoryList: seq<Category>)
    | Unrecognised

  function ExpenseKey(e: Expense): string { e.id }
  function AccountKey(a: Account): string { a.id }
  function CategoryKey(c: Category): string { c.id }

  /** `list.map(x => key(x) === key(item) ? item : x)`: every element sharing the item's id is
      replaced by the item, position by position. */
  function ReplaceById<T>(xs: seq<T>, key: T -> string, item: T): (r: seq<T>)
    ensures |r| == |xs|
    ensures forall i :: 0 <= i < |xs| ==> r[i] == if key(xs[i]) == key(item) then item else xs[i]
  {
    seq(|xs|, i requires 0 <= i < |xs| => if key(xs[i]) == key(item) then item else xs[i])
  }

  /** `list.filter(x => key(x) !== id)`. */
  function RemoveById<T>(xs: seq<T>, key: T -> string, id: string): (r: seq<T>)
    ensures |r| <= |xs|
    ensures forall i :: 0 <= i < |r| ==> key(r[i]) != id
    decreases |xs|
  {
    if xs == [] then []
    else (if key(xs[0]) != id then [xs[0]] else []) + RemoveById(xs[1..], key, id)
  }

  /** Number of elements carrying the given id. */
  function CountId<T>(xs: seq<T>, key: T -> string, id: string): nat
    decreases |xs|
  {
    if xs == [] then 0
    else (if key(xs[0]) == id then 1 else 0) + CountId(xs[1..], key, id)
  }

  /** `reduce((sum, expense) => sum + expense.amount, 0)`. */
  function SumAmounts(xs: seq<Expense>): real
    decreases |xs|
  {
    if xs == [] then 0.0 else SumAmounts(xs[..|xs| - 1]) + xs[|xs| - 1].amount
  }

  const InitialAccount: Account :=
    Account("1", "現金", Cash, 0.0, "TWD", None, None, "#10B981", true)

  const InitialCategories: seq<Category> := [
    Category("1", "餐飲", "🍽️", "#F59E0B", None, false),
    Category("2", "交通", "🚗", "#3B82F6", None, false),
    Category("3", "購物", "🛍️", "#8B5CF6", None, false),
    Category("4", "娛樂", "🎬", "#EC4899", None, false),
    Category("5", "醫療", "🏥", "#EF4444", None, false),
    Category("6", "教育", "📚", "#06B6D4", None, false),
    Category("7", "其他", "📝", "#6B7280", None, false)
  ]

  /** `initialState`: no records, the cash account, the seven built-in categories, not
      loading, no error. */
  function InitialState(): (s: State)
    ensures s.expenses == [] && |s.accounts| == 1 && |s.categories| == 7
    ensures !s.isLoading && s.error == None
    ensures s.accounts[0].accountType == Cash && s.accounts[0].currency == "TWD" && s.accounts[0].balance == 0.0
    ensures forall i :: 0 <= i < |s.categories| ==> !s.categories[i].isCustom
  {
    State([], [InitialAccount], InitialCategories, false, None)
  }

  /** `expenseReducer`. */
  function Reduce(s: State, a: Action): State {
    match a
    case SetLoading(b) => s.(isLoading := b)
    case SetError(m) => s.(error := m)
    case AddExpense(e) => s.(expenses := s.expenses + [e])
    case UpdateExpense(e) => s.(expenses := ReplaceById(s.expenses, ExpenseKey, e))
    case DeleteExpense(id) => s.(expenses := RemoveById(s.expenses, ExpenseKey, id))
    case SetExpenses(es) => s.(expenses := es)
    case AddAccount(x) => s.(accounts := s.accounts + [x])
    case UpdateAccount(x) => s.(accounts := ReplaceById(s.accounts, AccountKey, x))
    case DeleteAccount(id) => s.(accounts := RemoveById(s.accounts, AccountKey, id))
    case SetAccounts(xs) => s.(accounts := xs)
    case AddCategory(c) => s.(categories := s.categories + [c])
    case UpdateCategory(c) => s.(categories := ReplaceById(s.categories, CategoryKey, c))
    case DeleteCategory(id) => s.(categories := RemoveById(s.categories, CategoryKey, id))
    case SetCategories(cs) => s.(categories := cs)
    case Unrecognised => s
  }

  predicate TouchesExpenses(a: Action) {
    a.AddExpense? || a.UpdateExpense? || a.DeleteExpense? || a.SetExpenses?
  }

  predicate TouchesAccounts(a: Action) {
    a.AddAccount? || a.UpdateAccount? || a.DeleteAccount? || a.SetAccounts?
  }

  predicate TouchesCategories(a: Action) {
    a.AddCategory? || a.UpdateCategory? || a.DeleteCategory? || a.SetCategories?
  }

  /** Each action changes only its own part of the state; the default branch changes nothing. */
  lemma ReduceFrame(s: State, a: Action)
    ensures !TouchesExpenses(a) ==> Reduce(s, a).expenses == s.expenses
    ensures !TouchesAccounts(a) ==> Reduce(s, a).accounts == s.accounts
    ensures !TouchesCategories(a) ==> Reduce(s, a).categories == s.categories
    ensures !a.SetLoading? ==> Reduce(s, a).isLoading == s.isLoading
    ensures !a.SetError? ==> Reduce(s, a).error == s.error
    ensures a.Unrecognised? ==> Reduce(s, a) == s
  {
  }

  /** The ADD actions append the payload: one more element, the earlier ones untouched. */
  lemma AddAppends(s: State, e: Expense, x: Account, c: Category)
    ensures |Reduce(s, AddExpense(e)).expenses| == |s.expenses| + 1
    ensures Reduce(s, AddExpense(e)).expenses[..|s.expenses|] == s.expenses
    ensures Reduce(s, AddExpense(e)).expenses[|s.expenses|] == e
    ensures |Reduce(s, AddAccount(x)).accounts| == |s.accounts| + 1
    ensures Reduce(s, AddAccount(x)).accounts[..|s.accounts|] == s.accounts
    ensures Reduce(s, AddAccount(x)).accounts[|s.accounts|] == x
    ensures |Reduce(s, AddCategory(c)).categories| == |s.categories| + 1
    ensures Reduce(s, AddCategory(c)).categories[..|s.categories|] == s.categories
    ensures Reduce(s, AddCategory(c)).categories[|s.categories|] == c
  {
  }

  /** An update whose id matches nothing leaves the list as it was. */
  lemma ReplaceByIdNoMatch<T>(xs: seq<T>, key: T -> string, item: T)
    requires forall i :: 0 <= i < |xs| ==> key(xs[i]) != key(item)
    ensures ReplaceById(xs, key, item) == xs
  {
  }

  /** Updating twice with the same payload is the same as updating once. */
  lemma ReplaceByIdIdempotent<T>(xs: seq<T>, key: T -> string, item: T)
    ensures ReplaceById(ReplaceById(xs, key, item), key, item) == ReplaceById(xs, key, item)
  {
  }

  /** After an update, the payload sits exactly where its id occurred, once per occurrence. */
  lemma ReplaceByIdCount<T>(xs: seq<T>, key: T -> string, item: T)
    ensures CountId(ReplaceById(xs, key, item), key, key(item)) == CountId(xs, key, key(item))
  {
    CountIdPointwise(xs, ReplaceById(xs, key, item), key, key(item));
  }

  /** Two equally long lists whose elements carry the id at the same positions count it alike. */
  lemma {:induction false} CountIdPointwise<T>(xs: seq<T>, ys: seq<T>, key: T -> string, id: string)
    requires |xs| == |ys|
    requires forall i :: 0 <= i < |xs| ==> (key(xs[i]) == id <==> key(ys[i]) == id)
    ensures CountId(xs, key, id) == CountId(ys, key, id)
    decreases |xs|
  {
    if xs != [] {
      assert key(xs[0]) == id <==> key(ys[0]) == id;
      forall i | 0 <= i < |xs[1..]|
        ensures key(xs[1..][i]) == id <==> key(ys[1..][i]) == id
      {
        assert xs[1..][i] == xs[i + 1] && ys[1..][i] == ys[i + 1];
      }
      CountIdPointwise(xs[1..], ys[1..], key, id);
    }
  }

  /** A delete removes exactly the elements with the id: the list shrinks by their number. */
  lemma {:induction false} RemoveByIdLength<T>(xs: seq<T>, key: T -> string, id: string)
    ensures |RemoveById(xs, key, id)| == |xs| - CountId(xs, key, id)
    decreases |xs|
  {
    if xs != [] {
      RemoveByIdLength(xs[1..], key, id);
    }
  }

  /** A delete keeps every other element, with its multiplicity. */
  lemma {:induction false} RemoveByIdKeeps<T>(xs: seq<T>, key: T -> string, id: string)
    ensures forall y :: key(y) != id ==> multiset(RemoveById(xs, key, id))[y] == multiset(xs)[y]
    ensures forall y :: key(y) == id ==> multiset(RemoveById(xs, key, id))[y] == 0
    decreases |xs|
  {
    if xs != [] {
      RemoveByIdKeeps(xs[1..], key, id);
      assert xs == [xs[0]] + xs[1..];
    }
  }

  /** A delete distributes over concatenation, so the survivors keep their relative order. */
  lemma {:induction false} RemoveByIdAppend<T>(xs: seq<T>, ys: seq<T>, key: T -> string, id: string)
    ensures RemoveById(xs + ys, key, id) == RemoveById(xs, key, id) + RemoveById(ys, key, id)
    decreases |xs|
  {
    if xs == [] {
      assert xs + ys == ys;
    } else {
      var head := if key(xs[0]) != id then [xs[0]] else [];
      assert (xs + ys)[0] == xs[0];
      assert (xs + ys)[1..] == xs[1..] + ys;
      assert RemoveById(xs + ys, key, id) == head + RemoveById(xs[1..] + ys, key, id);
      RemoveByIdAppend(xs[1..], ys, key, id);
    }
  }

  /** A delete whose id matches nothing leaves the list as it was. */
  lemma {:induction false} RemoveByIdNoMatch<T>(xs: seq<T>, key: T -> string, id: string)
    requires forall i :: 0 <= i < |xs| ==> key(xs[i]) != id
    ensures RemoveById(xs, key, id) == xs
    decreases |xs|
  {
    if xs != [] {
      assert key(xs[0]) != id;
      RemoveByIdNoMatch(xs[1..], key, id);
    }
  }

  /** Adding a record and deleting its id returns the earlier list without every record that
      shared the id: with a colliding `Date.now()` id the older record goes too. Only when the
      id was fresh is the round trip exact. */
  lemma AddThenDelete(s: State, e: Expense)
    ensures Reduce(Reduce(s, AddExpense(e)), DeleteExpense(e.id)).expenses == RemoveById(s.expenses, ExpenseKey, e.id)
    ensures (forall i :: 0 <= i < |s.expenses| ==> s.expenses[i].id != e.id) ==>
      Reduce(Reduce(s, AddExpense(e)), DeleteExpense(e.id)) == s
  {
    RemoveByIdAppend(s.expenses, [e], ExpenseKey, e.id);
    assert RemoveById([e], ExpenseKey, e.id) == [];
    if forall i :: 0 <= i < |s.expenses| ==> s.expenses[i].id != e.id {
      RemoveByIdNoMatch(s.expenses, ExpenseKey, e.id);
    }
  }

  /** Two records with the same id: deleting one deletes both. */
  lemma CollidingIdsDeletedTogether(s: State, e1: Expense, e2: Expense)
    requires s.expenses == [] && e1.id == e2.id && e1 != e2
    ensures Reduce(Reduce(Reduce(s, AddExpense(e1)), AddExpense(e2)), DeleteExpense(e1.id)).expenses == []
  {
    assert Reduce(Reduce(s, AddExpense(e1)), AddExpense(e2)).expenses == [e1, e2];
    assert [e1, e2][1..] == [e2];
    assert RemoveById([e2], ExpenseKey, e1.id) == [];
  }

  /** An update with a colliding id overwrites every record with that id. */
  lemma CollidingIdsUpdatedTogether(s: State, e1: Expense, e2: Expense, e: Expense)
    requires s.expenses == [] && e1.id == e2.id == e.id
    ensures Reduce(Reduce(Reduce(s, AddExpense(e1)), AddExpense(e2)), UpdateExpense(e)).expenses == [e, e]
  {
    assert Reduce(Reduce(s, AddExpense(e1)), AddExpense(e2)).expenses == [e1, e2];
  }
}
