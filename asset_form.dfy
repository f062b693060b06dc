/** The "add asset" form: how the submitted fields are read, the checks that
    turn a submission away (in the order they are made), the note prefix
    built from the optional usage-months and condition fields, and the
    insert of the new asset. */
module AssetForm {
  import opened Common

  /** A Python float: a finite value, an infinity or NaN. */
  datatype Float = Finite(r: real) | PosInf | NegInf | NaN

  /** `p <= 0` in IEEE arithmetic: every comparison with NaN is false. */
  predicate LeZero(p: Float)
  {
    match p
    case Finite(r) => r <= 0.0
    case NegInf => true
    case PosInf => false
    case NaN => false
  }

  /** `p > 0` in IEEE arithmetic. */
  predicate GtZero(p: Float)
  {
    match p
    case Finite(r) => r > 0.0
    case PosInf => true
    case NegInf => false
    case NaN => false
  }

  /** An optional integer field read with `request.form.get`: absent, empty,
      not accepted by `int(...)`, or the integer `int(...)` returns. */
  datatype IntField = Missing | Blank | Unparsable | Parsed(n: int)

  /** One submission of the form. `price` and `quantity` are what `float(...)`
      and `int(...)` return, or None when they raise; `userId` is
      `request.form.get('user_id')`; `userText` and `notes` are read with an
      empty default. */
  datatype Form = Form(
    name: string,
    price: Option<Float>,
    quantity: Option<int>,
    assetTypeId: string,
    userId: Option<string>,
    userText: string,
    notes: string,
    usageMonths: IntField,
    conditionPercent: IntField,
    status: string)

  /** The columns the form writes into a new `asset` row, as the view hands
      them to the session: the price is still a Python float (it can be
      NaN) and the type and user ids are the submitted strings. The stored
      row, after the database has coerced them, is `Models.AssetRow`. */
  datatype NewAsset = NewAsset(
    name: string,
    price: Float,
    quantity: int,
    assetTypeId: string,
    userId: Option<string>,
    userText: string,
    notes: string,
    status: string)

  /** Why a submission is turned away; each comes with its own flash message. */
  datatype Rejection =
    | EmptyName
    | NonPositivePrice
    | QuantityBelowOne
    | DuplicateName
    | InvalidUsage
    | ConditionOutOfRange
    | InvalidCondition

  datatype Outcome = Rejected(reason: Rejection) | Created(asset: NewAsset)

  /** The flash message shown for each rejection. */
  function Message(r: Rejection): string
  {
    match r
    case EmptyName => "Tên tài sản không được để trống."
    case NonPositivePrice => "Giá phải lớn hơn 0."
    case QuantityBelowOne => "Số lượng phải >= 1."
    case DuplicateName => "Tên tài sản đã tồn tại, vui lòng chọn tên khác."
    case InvalidUsage => "Thời gian sử dụng không hợp lệ."
    case ConditionOutOfRange => "Độ mới phải trong khoảng 0-100%."
    case InvalidCondition => "Độ mới không hợp lệ."
  }

  // ---------------------------------------------------------------------
  // str.strip()

  /** `str.isspace()` for one character: the ASCII whitespace and separator
      controls, NEL, NO-BREAK SPACE and the Unicode space separators and
      line/paragraph separators. */
  predicate IsSpace(c: char)
  {
    var n := c as int;
    || (0x09 <= n <= 0x0D) || (0x1C <= n <= 0x20)
    || n == 0x85 || n == 0xA0 || n == 0x1680
    || (0x2000 <= n <= 0x200A)
    || n == 0x2028 || n == 0x2029 || n == 0x202F || n == 0x205F || n == 0x3000
  }

  /** `s` without its leading whitespace. */
  function TrimStart(s: string): string
  {
    if s != [] && IsSpace(s[0]) then TrimStart(s[1..]) else s
  }

  /** `s` without its trailing whitespace. */
  function TrimEnd(s: string): string
  {
    if s != [] && IsSpace(s[|s| - 1]) then TrimEnd(s[..|s| - 1]) else s
  }

  /** `s.strip()`. */
  function Strip(s: string): string
  {
    TrimEnd(TrimStart(s))
  }

  /** Only leading whitespace goes, and what is left does not start with whitespace. */
  lemma {:induction false} TrimStartFacts(s: string)
    ensures var r := TrimStart(s);
            && |r| <= |s| && r == s[|s| - |r|..]
            && (forall i :: 0 <= i < |s| - |r| ==> IsSpace(s[i]))
            && (r != [] ==> !IsSpace(r[0]))
  {
    if s != [] && IsSpace(s[0]) {
      TrimStartFacts(s[1..]);
      var r := TrimStart(s[1..]);
      assert forall i :: 1 <= i < |s| - |r| ==> s[i] == s[1..][i - 1];
    }
  }

  /** Only trailing whitespace goes, and what is left does not end with whitespace. */
  lemma {:induction false} TrimEndFacts(s: string)
    ensures var r := TrimEnd(s);
            && |r| <= |s| && r == s[..|r|]
            && (forall i :: |r| <= i < |s| ==> IsSpace(s[i]))
            && (r != [] ==> !IsSpace(r[|r| - 1]))
  {
    if s != [] && IsSpace(s[|s| - 1]) {
      var t := s[..|s| - 1];
      TrimEndFacts(t);
      var r := TrimEnd(t);
      assert forall i :: |r| <= i < |s| - 1 ==> s[i] == t[i];
      assert r == t[..|r|] == s[..|r|];
    }
  }

  /** The stripped name is a slice of the input with only whitespace cut off
      each end, and it neither starts nor ends with whitespace. */
  lemma StripFacts(s: string)
    ensures exists i, j :: 0 <= i <= j <= |s| && Strip(s) == s[i..j]
              && (forall k :: 0 <= k < i ==> IsSpace(s[k]))
              && (forall k :: j <= k < |s| ==> IsSpace(s[k]))
    ensures Strip(s) != [] ==> !IsSpace(Strip(s)[0]) && !IsSpace(Strip(s)[|Strip(s)| - 1])
  {
    var t := TrimStart(s);
    TrimStartFacts(s);
    TrimEndFacts(t);
    var r := TrimEnd(t);
    var i := |s| - |t|;
    var j := i + |r|;
    assert r == s[i..j];
    forall k | j <= k < |s| ensures IsSpace(s[k]) {
      assert s[k] == t[k - i];
    }
    if r != [] {
      assert r[0] == t[0];
    }
  }

  /** The name strips to nothing exactly when it is all whitespace. */
  lemma StripEmptyIff(s: string)
    ensures Strip(s) == [] <==> forall k :: 0 <= k < |s| ==> IsSpace(s[k])
  {
    var t := TrimStart(s);
    TrimStartFacts(s);
    TrimEndFacts(t);
    if t != [] {
      assert t[0] == s[|s| - |t|];
    }
    if Strip(s) == [] {
      assert t == [];
    }
  }

  /** Stripping twice is stripping once. */
  lemma StripIdempotent(s: string)
    ensures Strip(Strip(s)) == Strip(s)
  {
    var r := Strip(s);
    StripFacts(s);
    if r != [] {
      assert TrimStart(r) == r;
    }
  }

  // ---------------------------------------------------------------------
  // Reading the fields

  /** `float(request.form['price'])`, or 0.0 when it raises. */
  function PriceOf(f: Form): Float
  {
    match f.price
    case Some(p) => p
    case None => Finite(0.0)
  }

  /** `int(request.form['quantity'])`, or 0 when it raises. */
  function QuantityOf(f: Form): int
  {
    match f.quantity
    case Some(q) => q
    case None => 0
  }

  /** `request.form.get('user_id') or None`: an empty id is no id. */
  function UserIdOf(f: Form): Option<string>
  {
    match f.userId
    case Some(u) => if u == "" then None else Some(u)
    case None => None
  }

  /** The price check: the form tests `price <= 0`, which lets NaN through;
      the check meant is `not price > 0`. */
  datatype PriceGuard = AsWritten | Intended

  predicate PriceRejected(p: Float, g: PriceGuard)
  {
    match g
    case AsWritten => LeZero(p)
    case Intended => !GtZero(p)
  }

  /** An optional integer field passes when it is absent or empty, or parses
      to a value within [lo, hi] (no upper bound when `hi` is None). */
  predicate FieldOk(f: IntField, lo: int, hi: Option<int>)
  {
    match f
    case Missing => true
    case Blank => true
    case Unparsable => false
    case Parsed(n) => lo <= n && (hi.None? || n <= hi.value)
  }

  const UsageLabel := "Thời gian sử dụng: "
  const UsageUnit := " tháng"
  const ConditionLabel := "Độ mới: "
  const ConditionUnit := "%"
  const PartSeparator := "; "
  const PrefixEnd := ".\n"

  /** `f"Thời gian sử dụng: {um} tháng"`. */
  function UsagePart(um: nat): string
  {
    UsageLabel + NatToString(um) + UsageUnit
  }

  /** `f"Độ mới: {cp}%"`. */
  function ConditionPart(cp: nat): string
  {
    ConditionLabel + NatToString(cp) + ConditionUnit
  }

  /** `sep.join(parts)`. */
  function Join(parts: seq<string>, sep: string): string
  {
    if parts == [] then ""
    else if |parts| == 1 then parts[0]
    else parts[0] + sep + Join(parts[1..], sep)
  }

  /** The parts of the note prefix of an accepted form, usage first. */
  function PrefixParts(usage: IntField, condition: IntField): seq<string>
  {
    (if usage.Parsed? && usage.n >= 0 then [UsagePart(usage.n)] else [])
    + (if condition.Parsed? && condition.n >= 0 then [ConditionPart(condition.n)] else [])
  }

  /** `("; ".join(parts) + ".\n") + notes` when there are parts, else `notes`. */
  function WithPrefix(parts: seq<string>, notes: string): string
  {
    if parts == [] then notes else Join(parts, PartSeparator) + PrefixEnd + notes
  }

  // ---------------------------------------------------------------------
  // The decision

  /** The first check the submission fails, in the order the form makes
      them, against the names of every stored asset (soft-deleted ones
      included, since the duplicate lookup does not filter them out). */
  function FirstRejection(f: Form, existing: set<string>, g: PriceGuard): Option<Rejection>
  {
    var name := Strip(f.name);
    if name == [] then Some(EmptyName)
    else if PriceRejected(PriceOf(f), g) then Some(NonPositivePrice)
    else if QuantityOf(f) < 1 then Some(QuantityBelowOne)
    else if name in existing then Some(DuplicateName)
    else if !FieldOk(f.usageMonths, 0, None) then Some(InvalidUsage)
    else if f.conditionPercent.Parsed? && !FieldOk(f.conditionPercent, 0, Some(100)) then Some(ConditionOutOfRange)
    else if f.conditionPercent.Unparsable? then Some(InvalidCondition)
    else None
  }

  /** The row an accepted submission inserts. */
  function NewRow(f: Form): NewAsset
  {
    NewAsset(
      name := Strip(f.name),
      price := PriceOf(f),
      quantity := QuantityOf(f),
      assetTypeId := f.assetTypeId,
      userId := UserIdOf(f),
      userText := f.userText,
      notes := WithPrefix(PrefixParts(f.usageMonths, f.conditionPercent), f.notes),
      status := f.status)
  }

  function Decide(f: Form, existing: set<string>, g: PriceGuard): Outcome
  {
    match FirstRejection(f, existing, g)
    case Some(r) => Rejected(r)
    case None => Created(NewRow(f))
  }

  function Names(store: seq<NewAsset>): set<string>
  {
    set a | a in store :: a.name
  }

  /** `add_asset` on a POST: read the fields, make the checks one by one,
      collect the note prefix part by part, and insert the asset. The price
      check is `price <= 0`, as written. */
  method AddAsset(f: Form, store: seq<NewAsset>) returns (outcome: Outcome, stored: seq<NewAsset>)
    ensures outcome == Decide(f, Names(store), AsWritten)
    ensures stored == if outcome.Created? then store + [outcome.asset] else store
  {
    stored := store;
    var name := Strip(f.name);
    var price := PriceOf(f);
    var quantity := QuantityOf(f);
    if name == [] {
      return Rejected(EmptyName), stored;
    }
    if LeZero(price) {
      return Rejected(NonPositivePrice), stored;
    }
    if quantity < 1 {
      return Rejected(QuantityBelowOne), stored;
    }
    if name in Names(store) {
      return Rejected(DuplicateName), stored;
    }
    var prefixParts: seq<string> := [];
    match f.usageMonths {
      case Unparsable =>
        return Rejected(InvalidUsage), stored;
      case Parsed(um) =>
        if um < 0 {
          return Rejected(InvalidUsage), stored;
        }
        prefixParts := prefixParts + [UsagePart(um)];
      case _ =>
    }
    match f.conditionPercent {
      case Unparsable =>
        return Rejected(InvalidCondition), stored;
      case Parsed(cp) =>
        if cp < 0 || cp > 100 {
          return Rejected(ConditionOutOfRange), stored;
        }
        prefixParts := prefixParts + [ConditionPart(cp)];
      case _ =>
    }
    var notes := f.notes;
    if prefixParts != [] {
      notes := Join(prefixParts, PartSeparator) + PrefixEnd + notes;
    }
    var row := NewAsset(name, price, quantity, f.assetTypeId, UserIdOf(f), f.userText, notes, f.status);
    outcome := Created(row);
    stored := store + [row];
  }

  // ---------------------------------------------------------------------
  // Properties

  /** A submission is accepted exactly when it passes every check: a name
      that is not all whitespace and not taken, a price the guard accepts, a
      quantity of at least 1, usage months absent, empty or non-negative and
      condition absent, empty or within 0..100. */
  lemma AcceptedIff(f: Form, existing: set<string>, g: PriceGuard)
    ensures Decide(f, existing, g).Created? <==>
            && (exists k :: 0 <= k < |f.name| && !IsSpace(f.name[k]))
            && !PriceRejected(PriceOf(f), g)
            && QuantityOf(f) >= 1
            && Strip(f.name) !in existing
            && FieldOk(f.usageMonths, 0, None)
            && FieldOk(f.conditionPercent, 0, Some(100))
  {
    StripEmptyIff(f.name);
  }

  /** Every rejection names a check that fails, and every check before it
      in the form's order passes. */
  lemma RejectionReason(f: Form, existing: set<string>, g: PriceGuard)
    ensures var o := Decide(f, existing, g);
            && (o == Rejected(EmptyName) <==> forall k :: 0 <= k < |f.name| ==> IsSpace(f.name[k]))
            && (o == Rejected(NonPositivePrice) ==> Strip(f.name) != [] && PriceRejected(PriceOf(f), g))
            && (o == Rejected(QuantityBelowOne) ==>
                  Strip(f.name) != [] && !PriceRejected(PriceOf(f), g) && QuantityOf(f) < 1)
            && (o == Rejected(DuplicateName) ==>
                  Strip(f.name) != [] && !PriceRejected(PriceOf(f), g) && QuantityOf(f) >= 1
                  && Strip(f.name) in existing)
            && (o == Rejected(InvalidUsage) ==>
                  Strip(f.name) != [] && !PriceRejected(PriceOf(f), g) && QuantityOf(f) >= 1
                  && Strip(f.name) !in existing && !FieldOk(f.usageMonths, 0, None))
            && (o == Rejected(ConditionOutOfRange) ==>
                  Strip(f.name) != [] && !PriceRejected(PriceOf(f), g) && QuantityOf(f) >= 1
                  && Strip(f.name) !in existing && FieldOk(f.usageMonths, 0, None)
                  && f.conditionPercent.Parsed? && (f.conditionPercent.n < 0 || f.conditionPercent.n > 100))
            && (o == Rejected(InvalidCondition) ==>
                  Strip(f.name) != [] && !PriceRejected(PriceOf(f), g) && QuantityOf(f) >= 1
                  && Strip(f.name) !in existing && FieldOk(f.usageMonths, 0, None)
                  && f.conditionPercent.Unparsable?)
  {
    StripEmptyIff(f.name);
  }

  /** An accepted submission stores the stripped name, the parsed price and
      quantity, the passed-through columns and the prefixed notes, and the
      stored name is not blank and is free of surrounding whitespace. */
  lemma AcceptedRow(f: Form, existing: set<string>, g: PriceGuard)
    requires Decide(f, existing, g).Created?
    ensures var a := Decide(f, existing, g).asset;
            && a.name == Strip(f.name) && a.name != [] && a.name !in existing
            && !IsSpace(a.name[0]) && !IsSpace(a.name[|a.name| - 1])
            && a.price == PriceOf(f) && !PriceRejected(a.price, g)
            && a.quantity == QuantityOf(f) >= 1
            && a.assetTypeId == f.assetTypeId && a.userText == f.userText && a.status == f.status
            && a.userId == (if f.userId == Some("") then None else f.userId)
            && a.notes == WithPrefix(PrefixParts(f.usageMonths, f.conditionPercent), f.notes)
  {
    StripFacts(f.name);
  }

  /** The notes keep the submitted notes as their ending; with neither
      optional field filled in they are the submitted notes unchanged. */
  lemma NotesKeepSubmitted(parts: seq<string>, notes: string)
    ensures |WithPrefix(parts, notes)| >= |notes|
    ensures WithPrefix(parts, notes)[|WithPrefix(parts, notes)| - |notes|..] == notes
    ensures parts == [] ==> WithPrefix(parts, notes) == notes
    ensures parts != [] ==> WithPrefix(parts, notes)[..|WithPrefix(parts, notes)| - |notes|]
                              == Join(parts, PartSeparator) + PrefixEnd
  {
    if parts != [] {
      var w := WithPrefix(parts, notes);
      var pre := Join(parts, PartSeparator) + PrefixEnd;
      assert w == pre + notes;
      assert w[|pre|..] == notes;
      assert w[..|pre|] == pre;
    }
  }

  /** With both optional fields filled in, the prefix is the usage part and
      the condition part joined by "; " and closed by ".\n". */
  lemma BothParts(um: nat, cp: nat, notes: string)
    ensures WithPrefix(PrefixParts(Parsed(um), Parsed(cp)), notes)
            == UsagePart(um) + "; " + ConditionPart(cp) + ".\n" + notes
  {
    var u, c := UsagePart(um), ConditionPart(cp);
    var parts := PrefixParts(Parsed(um), Parsed(cp));
    assert parts == [u, c];
    assert parts[1..] == [c];
    assert Join(parts, PartSeparator) == u + "; " + c;
  }

  /** Usage 24 months and condition 80% give the prefix
      "Thời gian sử dụng: 24 tháng; Độ mới: 80%.\n". */
  lemma SamplePrefix(notes: string)
    ensures WithPrefix(PrefixParts(Parsed(24), Parsed(80)), notes)
            == "Thời gian sử dụng: 24 tháng; Độ mới: 80%.\n" + notes
  {
    BothParts(24, 80, notes);
    SampleParts();
  }

  /** The two parts for usage 24 and condition 80. */
  lemma SampleParts()
    ensures UsagePart(24) == "Thời gian sử dụng: 24 tháng"
    ensures ConditionPart(80) == "Độ mới: 80%"
  {
    SampleNumbers();
  }

  lemma SampleNumbers()
    ensures NatToString(24) == "24" && NatToString(80) == "80"
  {
    assert NatToString(2) == "2" && NatToString(8) == "8";
  }

  /** Names of stored assets that differ from one another. */
  ghost predicate DistinctNames(store: seq<NewAsset>)
  {
    forall i, j :: 0 <= i < j < |store| ==> store[i].name != store[j].name
  }

  /** The form never stores a second asset under a name already in use. */
  lemma AddKeepsNamesDistinct(f: Form, store: seq<NewAsset>, g: PriceGuard)
    requires DistinctNames(store)
    requires Decide(f, Names(store), g).Created?
    ensures DistinctNames(store + [Decide(f, Names(store), g).asset])
  {
    var a := Decide(f, Names(store), g).asset;
    var s := store + [a];
    forall i, j | 0 <= i < j < |s| ensures s[i].name != s[j].name {
      if j == |store| {
        assert s[i] in store;
      }
    }
  }

  /** Submitting the same accepted form again is turned away as a duplicate. */
  lemma ResubmitIsDuplicate(f: Form, store: seq<NewAsset>, g: PriceGuard)
    requires Decide(f, Names(store), g).Created?
    ensures Decide(f, Names(store + [Decide(f, Names(store), g).asset]), g) == Rejected(DuplicateName)
  {
    var a := Decide(f, Names(store), g).asset;
    assert a in store + [a];
    assert Strip(f.name) in Names(store + [a]);
  }

  /** The two price guards disagree on NaN alone. */
  lemma PriceGuardsDisagreeOnNaNOnly(p: Float)
    ensures PriceRejected(p, AsWritten) != PriceRejected(p, Intended) <==> p == NaN
  {
  }

  /** As written, a price of `float('nan')` passes the "price must be greater
      than 0" check and the submission goes on to the insert with a NaN
      price (which PostgreSQL stores; SQLite binds NaN as NULL, which the
      NOT NULL price column refuses at commit); the intended check turns
      the same submission away. */
  lemma NaNPriceAcceptedAsWritten()
    ensures var f := Form("Laptop", Some(NaN), Some(1), "1", None, "", "", Missing, Missing, "active");
            && Decide(f, {}, AsWritten) == Created(NewRow(f))
            && NewRow(f).price == NaN
            && Decide(f, {}, Intended) == Rejected(NonPositivePrice)
  {
    var f := Form("Laptop", Some(NaN), Some(1), "1", None, "", "", Missing, Missing, "active");
    assert !IsSpace(f.name[0]);
    assert Strip(f.name) == "Laptop";
  }

  /** Under the intended check an accepted asset always has a positive price. */
  lemma IntendedPriceIsPositive(f: Form, store: seq<NewAsset>)
    requires Decide(f, Names(store), Intended).Created?
    ensures GtZero(Decide(f, Names(store), Intended).asset.price)
  {
  }
}
