/** The marketplace application: users with a role string, brands owned by
    users, products belonging to brands, and per-user cart items. The
    database tables are sequences of records held by a `Store`; each route
    handler is a method that validates the request, changes the tables and
    reports an `Outcome` in place of the redirect and flash message. */
module Marketplace {
  import opened Tables
  import opened Text
  import opened Sorting

  const BUYER := "buyer"
  const BRAND := "brand"
  const ADMIN := "admin"

  /** Prices are whole cents: the application's floating-point prices are not modelled. */
  datatype User = User(id: int, username: string, passwordHash: string, role: string)
  datatype Brand = Brand(id: int, name: string, description: string, logo: Option<string>, ownerId: int)
  datatype Product = Product(id: int, title: string, description: string, price: int,
                             quantityAvailable: int, isActive: bool, image: Option<string>, brandId: int)
  datatype CartItem = CartItem(id: int, userId: int, productId: int, quantity: int)

  /** A file part of the request: the freshly generated uuid text and the client's
      file name. A part with an empty file name counts as no file. */
  datatype Upload = Upload(uuid: string, filename: string)

  /** What a request ends in. `LoginRequired` is the redirect of `login_required`,
      `Forbidden` a role or ownership refusal, `NotFound` a 404 from `get_or_404`,
      `Invalid` a rejected form value, `NeedsBrand` the redirect to brand creation,
      `ServerError` an exception inside the handler (a dangling reference). */
  datatype Outcome = Ok | LoginRequired | Forbidden | NotFound | Invalid | NeedsBrand | ServerError

  /** The name a saved logo or product image gets: the uuid followed by the client
      name's `splitext` extension, in the case the client sent it. */
  function MediaFileName(u: Upload): (r: string)
    ensures |u.uuid| <= |r| && r[..|u.uuid|] == u.uuid
    ensures |r| - |u.uuid| <= |u.filename| && r[|u.uuid|..] == u.filename[|u.filename| - (|r| - |u.uuid|)..]
    ensures |r| > |u.uuid| ==> r[|u.uuid|] == '.'
    ensures forall k :: |u.uuid| < k < |r| ==> r[k] != '.' && r[k] != '/'
  {
    u.uuid + Extension(u.filename)
  }

  /** When the last dot of the client name's last component follows a non-dot stem
      character, the saved name is the uuid and the client name from that dot on. */
  lemma MediaFileNameFromLastDot(u: Upload, stem: nat, dot: nat)
    requires stem < dot < |u.filename| && u.filename[dot] == '.' && u.filename[stem] != '.'
    requires forall m :: dot < m < |u.filename| ==> u.filename[m] != '.'
    requires forall m :: stem <= m < |u.filename| ==> u.filename[m] != '/'
    ensures MediaFileName(u) == u.uuid + u.filename[dot..]
  {
    ExtensionFromLastDot(u.filename, stem, dot);
  }

  /** `logo.png` sent with uuid `u` is saved as `u.png`. */
  lemma MediaFileNameExample()
    ensures MediaFileName(Upload("u", "logo.png")) == "u.png"
  {
    MediaFileNameFromLastDot(Upload("u", "logo.png"), 0, 4);
  }

  /** A client name without a dot gives the bare uuid. */
  lemma MediaFileNameWithoutDot(u: Upload)
    requires forall m :: 0 <= m < |u.filename| ==> u.filename[m] != '.'
    ensures MediaFileName(u) == u.uuid
  {
    assert LastIndex(u.filename, '.') == -1;
  }

  /** The logo (or image) after a form that may carry a file: `if logo_file:` holds
      exactly for a part with a non-empty file name, which gets a new name;
      otherwise the current one stays. */
  function NewFileName(upload: Option<Upload>, current: Option<string>): Option<string> {
    if upload.Some? && upload.value.filename != "" then Some(MediaFileName(upload.value)) else current
  }

  // ---------------------------------------------------------------------
  // Lookups

  function UserById(users: seq<User>, id: int): Option<nat> { IndexOf(users, (u: User) => u.id == id) }
  function UserByName(users: seq<User>, name: string): Option<nat> { IndexOf(users, (u: User) => u.username == name) }
  function BrandById(brands: seq<Brand>, id: int): Option<nat> { IndexOf(brands, (b: Brand) => b.id == id) }
  function ProductById(products: seq<Product>, id: int): Option<nat> { IndexOf(products, (p: Product) => p.id == id) }
  function CartItemById(cart: seq<CartItem>, id: int): Option<nat> { IndexOf(cart, (c: CartItem) => c.id == id) }
  function CartItemFor(cart: seq<CartItem>, userId: int, productId: int): Option<nat> {
    IndexOf(cart, (c: CartItem) => c.userId == userId && c.productId == productId)
  }

  /** Flask-Login's `current_user`: the user whose id the session holds, else anonymous. */
  function CurrentUser(users: seq<User>, session: Option<int>): (r: Option<User>)
    ensures r.Some? <==> session.Some? && exists k :: 0 <= k < |users| && users[k].id == session.value
    ensures r.Some? ==> r.value in users && r.value.id == session.value
  {
    if session.None? then None
    else match UserById(users, session.value)
      case None => None
      case Some(k) => Some(users[k])
  }

  /** The `login` route: the session it starts, given the password check of the user model. */
  function Login(users: seq<User>, username: string, password: string,
                 checkPassword: (string, string) -> bool): (session: Option<int>)
    ensures session.Some? <==> exists k :: 0 <= k < |users| && users[k].username == username
                                 && (forall j :: 0 <= j < k ==> users[j].username != username)
                                 && checkPassword(users[k].passwordHash, password)
    ensures session.Some? ==> exists k :: 0 <= k < |users| && users[k].username == username
                                 && users[k].id == session.value
  {
    match UserByName(users, username)
    case None => None
    case Some(k) => if checkPassword(users[k].passwordHash, password) then Some(users[k].id) else None
  }

  // ---------------------------------------------------------------------
  // Access control

  /** The test of `role_required(role)`: authenticated, with exactly that role. */
  predicate RoleRequired(current: Option<User>, role: string) {
    current.Some? && current.value.role == role
  }

  /** The ownership test of the product edit and delete routes. */
  predicate MayManageProduct(current: User, brandOwnerId: int) {
    brandOwnerId == current.id || current.role == ADMIN
  }

  // ---------------------------------------------------------------------
  // Catalogue listing (the index route)

  /** `lower(title) LIKE lower('%' || search || '%')`, SQLAlchemy's `ilike` on SQLite. */
  predicate TitleMatches(title: string, search: string) {
    Like(AsciiLower(title), AsciiLower("%" + search + "%"))
  }

  predicate Listed(p: Product, brand: Option<int>, search: string) {
    && p.isActive
    && (brand.None? || p.brandId == brand.value)
    && (search == "" || TitleMatches(p.title, search))
  }

  /** The `filter` calls of the index query: each listed product is kept as
      often as it is stored, in table order, and no other product is. */
  function Filter(products: seq<Product>, brand: Option<int>, search: string): (r: seq<Product>)
    ensures forall p :: multiset(r)[p] == if Listed(p, brand, search) then multiset(products)[p] else 0
    ensures forall p :: p in r <==> p in products && Listed(p, brand, search)
    ensures |r| <= |products|
  {
    if products == [] then []
    else
      var rest := Filter(products[1..], brand, search);
      assert products == [products[0]] + products[1..];
      assert forall p :: p in products <==> p == products[0] || p in products[1..];
      if Listed(products[0], brand, search) then [products[0]] + rest else rest
  }

  /** The order keys of the listing query: `ORDER BY [price ASC | price DESC,]
      quantity_available = 0, id`. Without a recognised price sort the first key is constant. */
  function ListingKeyOf(sortPrice: string, p: Product): Key {
    ( if sortPrice == "asc" then p.price else if sortPrice == "desc" then -p.price else 0,
      if p.quantityAvailable == 0 then 1 else 0,
      p.id )
  }

  function ListingKey(sortPrice: string): Product -> Key {
    (p: Product) => ListingKeyOf(sortPrice, p)
  }

  /** The products the index route lists for the query parameters `sort_price`,
      `brand` (already parsed) and `search` (raw). */
  function Listing(products: seq<Product>, sortPrice: string, brand: Option<int>, searchArg: string): (r: seq<Product>)
    ensures forall p :: multiset(r)[p] == if Listed(p, brand, Strip(searchArg)) then multiset(products)[p] else 0
    ensures forall p :: p in r <==> p in products && Listed(p, brand, Strip(searchArg))
    ensures SortedBy(r, ListingKey(sortPrice))
  {
    var kept := Filter(products, brand, Strip(searchArg));
    var r := SortBy(kept, ListingKey(sortPrice));
    assert forall p :: p in r <==> p in multiset(r);
    assert forall p :: p in kept <==> p in multiset(kept);
    r
  }

  /** For a search text without `%` or `_`, the search filter is a case-insensitive
      (ASCII) substring test on the title. */
  lemma {:induction false} SearchIsSubstring(title: string, search: string)
    requires NoWildcards(search)
    ensures TitleMatches(title, search) <==> Contains(AsciiLower(title), AsciiLower(search))
  {
    AsciiLowerConcat("%", search);
    AsciiLowerConcat("%" + search, "%");
    var ls := AsciiLower(search);
    assert AsciiLower("%") == "%";
    assert AsciiLower("%" + search + "%") == "%" + ls + "%";
    forall i | 0 <= i < |ls| ensures ls[i] != '%' && ls[i] != '_' {
      assert ls[i] == LowerChar(search[i]);
    }
    LikeInfix(AsciiLower(title), ls);
  }

  /** The tie-break of the listing: a product with stock 0 never precedes one
      with other stock, and two of the same kind are in id order. */
  predicate StockThenId(a: Product, b: Product) {
    && (a.quantityAvailable == 0 ==> b.quantityAvailable == 0)
    && ((a.quantityAvailable == 0) == (b.quantityAvailable == 0) ==> a.id <= b.id)
  }

  /** Without a recognised price sort every in-stock product precedes every
      product whose stock is 0, and products of the same kind are in id order. */
  lemma NoPriceSortOrder(products: seq<Product>, sortPrice: string, brand: Option<int>, searchArg: string)
    requires sortPrice != "asc" && sortPrice != "desc"
    ensures var l := Listing(products, sortPrice, brand, searchArg);
      forall i, j :: 0 <= i < j < |l| ==> StockThenId(l[i], l[j])
  {
    var l := Listing(products, sortPrice, brand, searchArg);
    forall i, j | 0 <= i < j < |l| ensures StockThenId(l[i], l[j]) {
      assert KeyLe(ListingKey(sortPrice)(l[i]), ListingKey(sortPrice)(l[j]));
    }
  }

  /** With `sort_price=asc` price is the primary key; the stock flag and then the
      id only break ties between equal prices. */
  lemma PriceAscending(products: seq<Product>, brand: Option<int>, searchArg: string)
    ensures var l := Listing(products, "asc", brand, searchArg);
      forall i, j :: 0 <= i < j < |l| ==>
        l[i].price <= l[j].price && (l[i].price == l[j].price ==> StockThenId(l[i], l[j]))
  {
    var l := Listing(products, "asc", brand, searchArg);
    forall i, j | 0 <= i < j < |l|
      ensures l[i].price <= l[j].price && (l[i].price == l[j].price ==> StockThenId(l[i], l[j]))
    {
      assert KeyLe(ListingKey("asc")(l[i]), ListingKey("asc")(l[j]));
    }
  }

  /** With `sort_price=desc` prices are non-increasing, with the same tie-breaks. */
  lemma PriceDescending(products: seq<Product>, brand: Option<int>, searchArg: string)
    ensures var l := Listing(products, "desc", brand, searchArg);
      forall i, j :: 0 <= i < j < |l| ==>
        l[i].price >= l[j].price && (l[i].price == l[j].price ==> StockThenId(l[i], l[j]))
  {
    var l := Listing(products, "desc", brand, searchArg);
    forall i, j | 0 <= i < j < |l|
      ensures l[i].price >= l[j].price && (l[i].price == l[j].price ==> StockThenId(l[i], l[j]))
    {
      assert KeyLe(ListingKey("desc")(l[i]), ListingKey("desc")(l[j]));
    }
  }

  /** A price sort can put a product that is out of stock before one that is in
      stock: the "out of stock last" rule holds only without a price sort. */
  lemma PriceSortOutranksStock()
    ensures var cheapGone := Product(2, "b", "", 100, 0, true, None, 1);
            var dearStocked := Product(1, "a", "", 200, 3, true, None, 1);
            Listing([dearStocked, cheapGone], "asc", None, "") == [cheapGone, dearStocked]
  {
    var cheapGone := Product(2, "b", "", 100, 0, true, None, 1);
    var dearStocked := Product(1, "a", "", 200, 3, true, None, 1);
    var ps := [dearStocked, cheapGone];
    var l := Listing(ps, "asc", None, "");
    assert Strip("") == "";
    assert multiset(ps) == multiset{cheapGone, dearStocked};
    assert multiset(l) == multiset{cheapGone, dearStocked};
    SortedPair(l, cheapGone, dearStocked, ListingKey("asc"));
  }

  // ---------------------------------------------------------------------
  // Cart

  /** At most one cart row per (user, product) pair. */
  predicate PairsUnique(cart: seq<CartItem>) {
    forall i, j :: 0 <= i < j < |cart| ==>
      cart[i].userId != cart[j].userId || cart[i].productId != cart[j].productId
  }

  predicate QuantitiesPositive(cart: seq<CartItem>) {
    forall i :: 0 <= i < |cart| ==> cart[i].quantity >= 1
  }

  /** The number of cart rows for (user, product). */
  function CountPair(cart: seq<CartItem>, userId: int, productId: int): nat {
    if cart == [] then 0
    else (if cart[0].userId == userId && cart[0].productId == productId then 1 else 0)
         + CountPair(cart[1..], userId, productId)
  }

  /** The merge rule of `add_to_cart`: never more than the current stock. */
  function Clamp(wanted: int, stock: int): (r: int)
    ensures r <= stock && r <= wanted && (r == wanted || r == stock)
  {
    if wanted > stock then stock else wanted
  }

  /** The cart table after an accepted `add_to_cart`: the row for (user, product)
      grows by `quantity`, clamped to `stock`, or a new row with id `freshId` is added. */
  function CartAdd(cart: seq<CartItem>, userId: int, productId: int, quantity: int, stock: int, freshId: int)
    : seq<CartItem>
  {
    match CartItemFor(cart, userId, productId)
    case Some(i) => cart[i := cart[i].(quantity := Clamp(cart[i].quantity + quantity, stock))]
    case None => cart + [CartItem(freshId, userId, productId, quantity)]
  }

  /** What the upsert does to the table: rows keep their ids, owners and
      products; only rows for (user, product) change, and only in quantity, by
      the clamped merge, which the first row for the pair takes; a row is appended, with the fresh id, exactly when
      there was none for the pair. */
  lemma CartAddRows(cart: seq<CartItem>, u: int, p: int, q: int, stock: int, freshId: int)
    ensures var r := CartAdd(cart, u, p, q, stock, freshId);
      && |cart| <= |r| <= |cart| + 1
      && (forall k :: 0 <= k < |cart| ==>
            r[k].id == cart[k].id && r[k].userId == cart[k].userId && r[k].productId == cart[k].productId)
      && (forall k :: 0 <= k < |cart| && (cart[k].userId != u || cart[k].productId != p) ==> r[k] == cart[k])
      && (forall k :: 0 <= k < |cart| && r[k] != cart[k] ==> r[k].quantity == Clamp(cart[k].quantity + q, stock))
      && (forall k ::
            (0 <= k < |cart| && cart[k].userId == u && cart[k].productId == p &&
             forall m :: 0 <= m < k ==> cart[m].userId != u || cart[m].productId != p) ==>
            r[k].quantity == Clamp(cart[k].quantity + q, stock))
      && (|r| == |cart| + 1 <==> forall k :: 0 <= k < |cart| ==> cart[k].userId != u || cart[k].productId != p)
      && (|r| == |cart| + 1 ==> r[|cart|] == CartItem(freshId, u, p, q))
  {
  }

  lemma {:induction false} CountPairAppend(cart: seq<CartItem>, x: CartItem, u: int, p: int)
    ensures CountPair(cart + [x], u, p) == CountPair(cart, u, p) + (if x.userId == u && x.productId == p then 1 else 0)
  {
    if cart != [] {
      assert (cart + [x])[1..] == cart[1..] + [x];
      CountPairAppend(cart[1..], x, u, p);
    }
  }

  lemma {:induction false} CountPairUpdate(cart: seq<CartItem>, i: nat, x: CartItem, u: int, p: int)
    requires i < |cart| && cart[i].userId == x.userId && cart[i].productId == x.productId
    ensures CountPair(cart[i := x], u, p) == CountPair(cart, u, p)
  {
    if i > 0 {
      assert cart[i := x][1..] == cart[1..][i - 1 := x];
      CountPairUpdate(cart[1..], i - 1, x, u, p);
    }
  }

  lemma {:induction false} CountPairNone(cart: seq<CartItem>, u: int, p: int)
    requires forall k :: 0 <= k < |cart| ==> cart[k].userId != u || cart[k].productId != p
    ensures CountPair(cart, u, p) == 0
  {
    if cart != [] { CountPairNone(cart[1..], u, p); }
  }

  lemma {:induction false} CountPairOne(cart: seq<CartItem>, i: nat, u: int, p: int)
    requires PairsUnique(cart) && i < |cart| && cart[i].userId == u && cart[i].productId == p
    ensures CountPair(cart, u, p) == 1
  {
    if i == 0 {
      CountPairNone(cart[1..], u, p);
    } else {
      CountPairOne(cart[1..], i - 1, u, p);
    }
  }

  /** An accepted add keeps one row per pair and positive quantities, leaves exactly
      one row for (user, product), and that row holds at most the stock. */
  lemma CartAddWithinStock(cart: seq<CartItem>, u: int, p: int, q: int, stock: int, freshId: int)
    requires PairsUnique(cart) && QuantitiesPositive(cart)
    requires 1 <= q <= stock
    ensures var r := CartAdd(cart, u, p, q, stock, freshId);
      && PairsUnique(r) && QuantitiesPositive(r)
      && CountPair(r, u, p) == 1
      && (forall k :: 0 <= k < |r| && r[k].userId == u && r[k].productId == p ==> r[k].quantity <= stock)
  {
    var r := CartAdd(cart, u, p, q, stock, freshId);
    match CartItemFor(cart, u, p)
    case Some(i) =>
      CountPairOne(cart, i, u, p);
      CountPairUpdate(cart, i, r[i], u, p);
    case None =>
      CountPairNone(cart, u, p);
      CountPairAppend(cart, r[|r| - 1], u, p);
  }

  /** A run of accepted adds of one product, each with fresh ids. */
  function AddAll(cart: seq<CartItem>, u: int, p: int, stock: int, qs: seq<int>, freshId: int): seq<CartItem>
    decreases |qs|
  {
    if qs == [] then cart
    else AddAll(CartAdd(cart, u, p, qs[0], stock, freshId), u, p, stock, qs[1..], freshId + 1)
  }

  /** However many times a buyer adds a product whose stock stays S, the cart holds
      exactly one row for it, never with more than S. */
  lemma {:induction false} RepeatedAddsMerge(cart: seq<CartItem>, u: int, p: int, stock: int, qs: seq<int>, freshId: int)
    decreases |qs|
    requires PairsUnique(cart) && QuantitiesPositive(cart)
    requires qs != [] && forall k :: 0 <= k < |qs| ==> 1 <= qs[k] <= stock
    ensures var r := AddAll(cart, u, p, stock, qs, freshId);
      && PairsUnique(r) && CountPair(r, u, p) == 1
      && (forall k :: 0 <= k < |r| && r[k].userId == u && r[k].productId == p ==> r[k].quantity <= stock)
  {
    CartAddWithinStock(cart, u, p, qs[0], stock, freshId);
    if |qs| > 1 {
      RepeatedAddsMerge(CartAdd(cart, u, p, qs[0], stock, freshId), u, p, stock, qs[1..], freshId + 1);
    }
  }

  /** Adding 3 and then 4 of a product with stock 5 leaves 5 in the cart, not 7. */
  lemma ClampExample(u: int, p: int)
    ensures CartAdd([], u, p, 3, 5, 1) == [CartItem(1, u, p, 3)]
    ensures CartAdd([CartItem(1, u, p, 3)], u, p, 4, 5, 2) == [CartItem(1, u, p, 5)]
  {
  }

  /** Once the stock has been lowered below a cart row's quantity, a further
      accepted add of 1 shrinks that row to the new stock. */
  lemma LoweredStockShrinksRow(u: int, p: int)
    ensures CartAdd([CartItem(1, u, p, 5)], u, p, 1, 2, 2) == [CartItem(1, u, p, 2)]
  {
  }

  /** Addition on a total that may have failed. */
  function Plus(total: Option<int>, d: int): Option<int> {
    if total.None? then None else Some(total.value + d)
  }

  /** `sum(item.product.price * item.quantity for item in cart_items)` over the
      user's rows, or `None` when a row refers to a product that is gone. */
  function CartTotal(cart: seq<CartItem>, products: seq<Product>, userId: int): Option<int> {
    if cart == [] then Some(0)
    else
      var rest := CartTotal(cart[1..], products, userId);
      if cart[0].userId != userId then rest
      else match ProductById(products, cart[0].productId)
        case None => None
        case Some(k) => Plus(rest, products[k].price * cart[0].quantity)
  }

  /** The total fails exactly when one of the user's rows names a product that
      is gone, and is 0 for a user without rows. */
  lemma {:induction false} CartTotalDefined(cart: seq<CartItem>, products: seq<Product>, u: int)
    ensures CartTotal(cart, products, u).None? <==>
      exists k :: 0 <= k < |cart| && cart[k].userId == u && ProductById(products, cart[k].productId).None?
    ensures (forall k :: 0 <= k < |cart| ==> cart[k].userId != u) ==> CartTotal(cart, products, u) == Some(0)
  {
    if cart != [] {
      CartTotalDefined(cart[1..], products, u);
      assert forall k :: 1 <= k < |cart| ==> cart[k] == cart[1..][k - 1];
    }
  }

  /** Changing the quantity of one of the user's rows changes the total by price
      times the difference. */
  lemma {:induction false} CartTotalUpdate(cart: seq<CartItem>, products: seq<Product>, u: int, i: nat, q: int, k: nat)
    requires i < |cart| && cart[i].userId == u
    requires ProductById(products, cart[i].productId) == Some(k)
    ensures CartTotal(cart[i := cart[i].(quantity := q)], products, u)
         == Plus(CartTotal(cart, products, u), products[k].price * (q - cart[i].quantity))
  {
    var price := products[k].price;
    if i == 0 {
      assert cart[0 := cart[0].(quantity := q)][1..] == cart[1..];
      assert price * q == price * cart[0].quantity + price * (q - cart[0].quantity);
    } else {
      assert cart[i := cart[i].(quantity := q)][1..] == cart[1..][i - 1 := cart[i].(quantity := q)];
      CartTotalUpdate(cart[1..], products, u, i - 1, q, k);
    }
  }

  /** A new row of the user's adds price times quantity to the total; a row of
      another user changes nothing. */
  lemma {:induction false} CartTotalAppend(cart: seq<CartItem>, products: seq<Product>, u: int, x: CartItem)
    ensures x.userId != u ==> CartTotal(cart + [x], products, u) == CartTotal(cart, products, u)
    ensures x.userId == u && ProductById(products, x.productId).Some? ==>
      CartTotal(cart + [x], products, u)
        == Plus(CartTotal(cart, products, u), products[ProductById(products, x.productId).value].price * x.quantity)
  {
    if cart == [] {
      assert [x][1..] == [];
    } else {
      assert (cart + [x])[1..] == cart[1..] + [x];
      CartTotalAppend(cart[1..], products, u, x);
    }
  }

  /** Removing one of the user's rows takes its price times quantity off the total. */
  lemma {:induction false} CartTotalRemove(cart: seq<CartItem>, products: seq<Product>, u: int, i: nat, k: nat)
    requires i < |cart| && cart[i].userId == u
    requires ProductById(products, cart[i].productId) == Some(k)
    ensures Plus(CartTotal(cart[..i] + cart[i + 1..], products, u), products[k].price * cart[i].quantity)
         == CartTotal(cart, products, u)
  {
    if i == 0 {
      assert cart[..0] + cart[1..] == cart[1..];
    } else {
      assert (cart[..i] + cart[i + 1..])[1..] == cart[1..][..i - 1] + cart[1..][i..];
      assert (cart[..i] + cart[i + 1..])[0] == cart[0];
      CartTotalRemove(cart[1..], products, u, i - 1, k);
    }
  }

  // ---------------------------------------------------------------------
  // Table invariants

  predicate UsersValid(users: seq<User>, nextId: int) {
    && (forall i :: 0 <= i < |users| ==> users[i].id < nextId)
    && (forall i, j :: 0 <= i < j < |users| ==> users[i].id != users[j].id && users[i].username != users[j].username)
  }

  predicate BrandsValid(brands: seq<Brand>, nextId: int) {
    && (forall i :: 0 <= i < |brands| ==> brands[i].id < nextId)
    && (forall i, j :: 0 <= i < j < |brands| ==> brands[i].id != brands[j].id)
  }

  /** Appending a row that takes the next id keeps the brand table's invariant. */
  lemma BrandsValidAppend(brands: seq<Brand>, nextId: int, b: Brand)
    requires BrandsValid(brands, nextId) && b.id == nextId
    ensures BrandsValid(brands + [b], nextId + 1)
  {
  }

  predicate ProductsValid(products: seq<Product>, nextId: int) {
    && (forall i :: 0 <= i < |products| ==> products[i].id < nextId)
    && (forall i, j :: 0 <= i < j < |products| ==> products[i].id != products[j].id)
  }

  /** Appending a row that takes the next id keeps the product table's invariant. */
  lemma ProductsValidAppend(products: seq<Product>, nextId: int, p: Product)
    requires ProductsValid(products, nextId) && p.id == nextId
    ensures ProductsValid(products + [p], nextId + 1)
  {
  }

  predicate CartValid(cart: seq<CartItem>, nextId: int) {
    && (forall i :: 0 <= i < |cart| ==> cart[i].id < nextId)
    && (forall i, j :: 0 <= i < j < |cart| ==> cart[i].id != cart[j].id)
    && PairsUnique(cart) && QuantitiesPositive(cart)
  }

  /** Deleting one row keeps the cart table's invariant. */
  lemma CartValidRemove(cart: seq<CartItem>, nextId: int, i: nat)
    requires CartValid(cart, nextId) && i < |cart|
    ensures CartValid(cart[..i] + cart[i + 1..], nextId)
  {
    var r := cart[..i] + cart[i + 1..];
    assert forall k :: 0 <= k < |r| ==> r[k] == if k < i then cart[k] else cart[k + 1];
  }

  /** An accepted add keeps the cart table's invariant, taking the next id only when it inserts. */
  lemma CartAddKeepsValid(cart: seq<CartItem>, u: int, p: int, q: int, stock: int, nextId: int)
    requires CartValid(cart, nextId) && 1 <= q <= stock
    ensures CartValid(CartAdd(cart, u, p, q, stock, nextId),
                      nextId + (if CartItemFor(cart, u, p).Some? then 0 else 1))
  {
    CartAddWithinStock(cart, u, p, q, stock, nextId);
  }

  // ---------------------------------------------------------------------
  // The store

  class Store {
    /** Column defaults of the user and product models, which this model does not see. */
    const defaultRole: string
    const defaultStock: int
    const defaultActive: bool

    var users: seq<User>
    var brands: seq<Brand>
    var products: seq<Product>
    var cart: seq<CartItem>
    var nextUserId: int
    var nextBrandId: int
    var nextProductId: int
    var nextCartItemId: int

    /** Ids are distinct and below the next id of their table, usernames are
        distinct, and the cart keeps one positive row per (user, product). */
    ghost predicate Valid()
      reads this
    {
      && UsersValid(users, nextUserId)
      && BrandsValid(brands, nextBrandId)
      && ProductsValid(products, nextProductId)
      && CartValid(cart, nextCartItemId)
    }

    constructor (defaultRole: string, defaultStock: int, defaultActive: bool)
      ensures Valid()
      ensures this.defaultRole == defaultRole && this.defaultStock == defaultStock && this.defaultActive == defaultActive
      ensures users == [] && brands == [] && products == [] && cart == []
      ensures nextUserId == 1 && nextBrandId == 1 && nextProductId == 1 && nextCartItemId == 1
    {
      this.defaultRole, this.defaultStock, this.defaultActive := defaultRole, defaultStock, defaultActive;
      users, brands, products, cart := [], [], [], [];
      nextUserId, nextBrandId, nextProductId, nextCartItemId := 1, 1, 1, 1;
    }

    function Current(session: Option<int>): Option<User>
      reads this
    {
      CurrentUser(users, session)
    }

    /** The `register` route: a taken username is refused, otherwise one user with
        the model's default role is added. */
    method Register(username: string, passwordHash: string) returns (outcome: Outcome)
      requires Valid()
      modifies this
      ensures Valid()
      ensures brands == old(brands) && products == old(products) && cart == old(cart)
      ensures nextBrandId == old(nextBrandId) && nextProductId == old(nextProductId) && nextCartItemId == old(nextCartItemId)
      ensures outcome == Invalid || outcome == Ok
      ensures outcome == Invalid <==> exists k :: 0 <= k < |old(users)| && old(users)[k].username == username
      ensures outcome == Invalid ==> users == old(users) && nextUserId == old(nextUserId)
      ensures outcome == Ok ==>
        users == old(users) + [User(old(nextUserId), username, passwordHash, defaultRole)] && nextUserId == old(nextUserId) + 1
    {
      if UserByName(users, username).Some? {
        return Invalid;
      }
      users := users + [User(nextUserId, username, passwordHash, defaultRole)];
      nextUserId := nextUserId + 1;
      outcome := Ok;
    }

    /** Start-up seeding: an `admin` user with role admin, only if no user has that name. */
    method SeedAdmin(passwordHash: string)
      requires Valid()
      modifies this
      ensures Valid()
      ensures brands == old(brands) && products == old(products) && cart == old(cart)
      ensures nextBrandId == old(nextBrandId) && nextProductId == old(nextProductId) && nextCartItemId == old(nextCartItemId)
      ensures (exists k :: 0 <= k < |old(users)| && old(users)[k].username == ADMIN) ==>
                users == old(users) && nextUserId == old(nextUserId)
      ensures (forall k :: 0 <= k < |old(users)| ==> old(users)[k].username != ADMIN) ==>
                users == old(users) + [User(old(nextUserId), ADMIN, passwordHash, ADMIN)]
                && nextUserId == old(nextUserId) + 1
    {
      if UserByName(users, ADMIN).None? {
        users := users + [User(nextUserId, ADMIN, passwordHash, ADMIN)];
        nextUserId := nextUserId + 1;
      }
    }

    /** The `create_brand` route: a user with role brand adds a brand owned by them. */
    method CreateBrand(session: Option<int>, name: string, description: string, logo: Option<Upload>)
      returns (outcome: Outcome)
      requires Valid()
      modifies this
      ensures Valid()
      ensures users == old(users) && products == old(products) && cart == old(cart)
      ensures nextUserId == old(nextUserId) && nextProductId == old(nextProductId) && nextCartItemId == old(nextCartItemId)
      ensures outcome == LoginRequired <==> old(Current(session)).None?
      ensures outcome == Ok <==> RoleRequired(old(Current(session)), BRAND)
      ensures outcome == LoginRequired || outcome == Forbidden || outcome == Ok
      ensures outcome != Ok ==> brands == old(brands) && nextBrandId == old(nextBrandId)
      ensures outcome == Ok ==>
        brands == old(brands) + [Brand(old(nextBrandId), name, description, NewFileName(logo, None), old(Current(session)).value.id)]
        && nextBrandId == old(nextBrandId) + 1
    {
      var current := Current(session);
      if current.None? { return LoginRequired; }
      if current.value.role != BRAND { return Forbidden; }
      var brand := Brand(nextBrandId, name, description, NewFileName(logo, None), current.value.id);
      BrandsValidAppend(brands, nextBrandId, brand);
      brands := brands + [brand];
      nextBrandId := nextBrandId + 1;
      outcome := Ok;
    }

    /** The `edit_brand` route: role brand, and the caller must own the brand. */
    method EditBrand(session: Option<int>, brandId: int, name: string, description: string, logo: Option<Upload>)
      returns (outcome: Outcome)
      requires Valid()
      modifies this
      ensures Valid()
      ensures users == old(users) && products == old(products) && cart == old(cart)
      ensures nextUserId == old(nextUserId) && nextBrandId == old(nextBrandId)
      ensures nextProductId == old(nextProductId) && nextCartItemId == old(nextCartItemId)
      ensures outcome == LoginRequired <==> old(Current(session)).None?
      ensures outcome == NotFound <==> RoleRequired(old(Current(session)), BRAND) && BrandById(old(brands), brandId).None?
      ensures outcome == Ok <==>
                                 && RoleRequired(old(Current(session)), BRAND) && BrandById(old(brands), brandId).Some?
                                 && old(brands)[BrandById(old(brands), brandId).value].ownerId == old(Current(session)).value.id
      ensures outcome in {LoginRequired, Forbidden, NotFound, Ok}
      ensures outcome != Ok ==> brands == old(brands)
      ensures outcome == Ok ==> var i := BrandById(old(brands), brandId).value;
        brands == old(brands)[i := old(brands)[i].(name := name, description := description,
                                                   logo := NewFileName(logo, old(brands)[i].logo))]
    {
      var current := Current(session);
      if current.None? { return LoginRequired; }
      if current.value.role != BRAND { return Forbidden; }
      var found := BrandById(brands, brandId);
      if found.None? { return NotFound; }
      var i := found.value;
      if brands[i].ownerId != current.value.id { return Forbidden; }
      brands := brands[i := brands[i].(name := name, description := description, logo := NewFileName(logo, brands[i].logo))];
      outcome := Ok;
    }

    /** The `delete_brand` route: same guard as editing; the brand row is removed.
        What happens to its products is decided by the brand model and left as is. */
    method DeleteBrand(session: Option<int>, brandId: int) returns (outcome: Outcome)
      requires Valid()
      modifies this
      ensures Valid()
      ensures users == old(users) && products == old(products) && cart == old(cart)
      ensures nextUserId == old(nextUserId) && nextBrandId == old(nextBrandId)
      ensures nextProductId == old(nextProductId) && nextCartItemId == old(nextCartItemId)
      ensures outcome == LoginRequired <==> old(Current(session)).None?
      ensures outcome == NotFound <==> RoleRequired(old(Current(session)), BRAND) && BrandById(old(brands), brandId).None?
      ensures outcome == Ok <==>
                                 && RoleRequired(old(Current(session)), BRAND) && BrandById(old(brands), brandId).Some?
                                 && old(brands)[BrandById(old(brands), brandId).value].ownerId == old(Current(session)).value.id
      ensures outcome in {LoginRequired, Forbidden, NotFound, Ok}
      ensures outcome != Ok ==> brands == old(brands)
      ensures outcome == Ok ==> var i := BrandById(old(brands), brandId).value;
        brands == old(brands)[..i] + old(brands)[i + 1..]
    {
      var current := Current(session);
      if current.None? { return LoginRequired; }
      if current.value.role != BRAND { return Forbidden; }
      var found := BrandById(brands, brandId);
      if found.None? { return NotFound; }
      var i := found.value;
      if brands[i].ownerId != current.value.id { return Forbidden; }
      brands := brands[..i] + brands[i + 1..];
      outcome := Ok;
    }

    /** The `create_product` route: role brand and owning at least one brand; the
        chosen brand only has to exist, it need not be the caller's. */
    method CreateProduct(session: Option<int>, title: string, description: string, price: int,
                         brandId: int, image: Option<Upload>)
      returns (outcome: Outcome)
      requires Valid()
      modifies this
      ensures Valid()
      ensures users == old(users) && brands == old(brands) && cart == old(cart)
      ensures nextUserId == old(nextUserId) && nextBrandId == old(nextBrandId) && nextCartItemId == old(nextCartItemId)
      ensures outcome == LoginRequired <==> old(Current(session)).None?
      ensures outcome == Forbidden <==> old(Current(session)).Some? && !RoleRequired(old(Current(session)), BRAND)
      ensures outcome == NeedsBrand <==>
        && RoleRequired(old(Current(session)), BRAND)
        && forall k :: 0 <= k < |old(brands)| ==> old(brands)[k].ownerId != old(Current(session)).value.id
      ensures outcome == Ok <==>
        && RoleRequired(old(Current(session)), BRAND)
        && (exists k :: 0 <= k < |old(brands)| && old(brands)[k].ownerId == old(Current(session)).value.id)
        && BrandById(old(brands), brandId).Some?
      ensures outcome == NotFound <==>
        && RoleRequired(old(Current(session)), BRAND)
        && (exists k :: 0 <= k < |old(brands)| && old(brands)[k].ownerId == old(Current(session)).value.id)
        && BrandById(old(brands), brandId).None?
      ensures outcome in {LoginRequired, Forbidden, NeedsBrand, NotFound, Ok}
      ensures outcome != Ok ==> products == old(products) && nextProductId == old(nextProductId)
      ensures outcome == Ok ==>
        products == old(products) + [Product(old(nextProductId), title, description, price, defaultStock,
                                             defaultActive, NewFileName(image, None), brandId)]
        && nextProductId == old(nextProductId) + 1
    {
      var current := Current(session);
      if current.None? { return LoginRequired; }
      if current.value.role != BRAND { return Forbidden; }
      if IndexOf(brands, (b: Brand) => b.ownerId == current.value.id).None? { return NeedsBrand; }
      if BrandById(brands, brandId).None? { return NotFound; }
      var product := Product(nextProductId, title, description, price, defaultStock,
                             defaultActive, NewFileName(image, None), brandId);
      ProductsValidAppend(products, nextProductId, product);
      products := products + [product];
      nextProductId := nextProductId + 1;
      outcome := Ok;
    }

    /** The `edit_product` route: any logged-in owner of the product's brand, or an
        admin. The new stock is taken as given, even below quantities already in carts. */
    method EditProduct(session: Option<int>, productId: int, title: string, description: string, price: int,
                       quantityAvailable: int, image: Option<Upload>)
      returns (outcome: Outcome)
      requires Valid()
      modifies this
      ensures Valid()
      ensures users == old(users) && brands == old(brands) && cart == old(cart)
      ensures nextUserId == old(nextUserId) && nextBrandId == old(nextBrandId)
      ensures nextProductId == old(nextProductId) && nextCartItemId == old(nextCartItemId)
      ensures outcome == LoginRequired <==> old(Current(session)).None?
      ensures outcome == NotFound <==> old(Current(session)).Some? && ProductById(old(products), productId).None?
      ensures outcome == ServerError <==>
        && old(Current(session)).Some? && ProductById(old(products), productId).Some?
        && BrandById(old(brands), old(products)[ProductById(old(products), productId).value].brandId).None?
      ensures outcome == Ok <==>
        && old(Current(session)).Some? && ProductById(old(products), productId).Some?
        && var owner := BrandById(old(brands), old(products)[ProductById(old(products), productId).value].brandId);
           owner.Some? && MayManageProduct(old(Current(session)).value, old(brands)[owner.value].ownerId)
      ensures outcome in {LoginRequired, NotFound, ServerError, Forbidden, Ok}
      ensures outcome != Ok ==> products == old(products)
      ensures outcome == Ok ==> var i := ProductById(old(products), productId).value;
        products == old(products)[i := old(products)[i].(title := title, description := description, price := price,
                                      quantityAvailable := quantityAvailable, image := NewFileName(image, old(products)[i].image))]
    {
      var current := Current(session);
      if current.None? { return LoginRequired; }
      var found := ProductById(products, productId);
      if found.None? { return NotFound; }
      var i := found.value;
      var owner := BrandById(brands, products[i].brandId);
      if owner.None? { return ServerError; }
      if !MayManageProduct(current.value, brands[owner.value].ownerId) { return Forbidden; }
      products := products[i := products[i].(title := title, description := description, price := price,
                                             quantityAvailable := quantityAvailable, image := NewFileName(image, products[i].image))];
      outcome := Ok;
    }

    /** The `delete_product` route: same guard as editing; cart rows naming the
        product are left in place. */
    method DeleteProduct(session: Option<int>, productId: int) returns (outcome: Outcome)
      requires Valid()
      modifies this
      ensures Valid()
      ensures users == old(users) && brands == old(brands) && cart == old(cart)
      ensures nextUserId == old(nextUserId) && nextBrandId == old(nextBrandId)
      ensures nextProductId == old(nextProductId) && nextCartItemId == old(nextCartItemId)
      ensures outcome == LoginRequired <==> old(Current(session)).None?
      ensures outcome == NotFound <==> old(Current(session)).Some? && ProductById(old(products), productId).None?
      ensures outcome == ServerError <==>
        && old(Current(session)).Some? && ProductById(old(products), productId).Some?
        && BrandById(old(brands), old(products)[ProductById(old(products), productId).value].brandId).None?
      ensures outcome == Ok <==>
        && old(Current(session)).Some? && ProductById(old(products), productId).Some?
        && var owner := BrandById(old(brands), old(products)[ProductById(old(products), productId).value].brandId);
           owner.Some? && MayManageProduct(old(Current(session)).value, old(brands)[owner.value].ownerId)
      ensures outcome in {LoginRequired, NotFound, ServerError, Forbidden, Ok}
      ensures outcome != Ok ==> products == old(products)
      ensures outcome == Ok ==> var i := ProductById(old(products), productId).value;
        products == old(products)[..i] + old(products)[i + 1..]
    {
      var current := Current(session);
      if current.None? { return LoginRequired; }
      var found := ProductById(products, productId);
      if found.None? { return NotFound; }
      var i := found.value;
      var owner := BrandById(brands, products[i].brandId);
      if owner.None? { return ServerError; }
      if !MayManageProduct(current.value, brands[owner.value].ownerId) { return Forbidden; }
      products := products[..i] + products[i + 1..];
      outcome := Ok;
    }

    /** The `change_user_role` route: an admin sets any user's role to any text. */
    method ChangeUserRole(session: Option<int>, userId: int, newRole: string) returns (outcome: Outcome)
      requires Valid()
      modifies this
      ensures Valid()
      ensures brands == old(brands) && products == old(products) && cart == old(cart)
      ensures nextUserId == old(nextUserId) && nextBrandId == old(nextBrandId)
      ensures nextProductId == old(nextProductId) && nextCartItemId == old(nextCartItemId)
      ensures outcome == LoginRequired <==> old(Current(session)).None?
      ensures outcome == Forbidden <==> old(Current(session)).Some? && !RoleRequired(old(Current(session)), ADMIN)
      ensures outcome == NotFound <==> RoleRequired(old(Current(session)), ADMIN) && UserById(old(users), userId).None?
      ensures outcome in {LoginRequired, Forbidden, NotFound, Ok}
      ensures outcome != Ok ==> users == old(users)
      ensures outcome == Ok ==> var i := UserById(old(users), userId).value;
        users == old(users)[i := old(users)[i].(role := newRole)]
    {
      var current := Current(session);
      if current.None? { return LoginRequired; }
      if current.value.role != ADMIN { return Forbidden; }
      var found := UserById(users, userId);
      if found.None? { return NotFound; }
      var i := found.value;
      users := users[i := users[i].(role := newRole)];
      outcome := Ok;
    }

    /** The admin brand edit route: role admin, no ownership test. */
    method AdminEditBrand(session: Option<int>, brandId: int, name: string, description: string, logo: Option<Upload>)
      returns (outcome: Outcome)
      requires Valid()
      modifies this
      ensures Valid()
      ensures users == old(users) && products == old(products) && cart == old(cart)
      ensures nextUserId == old(nextUserId) && nextBrandId == old(nextBrandId)
      ensures nextProductId == old(nextProductId) && nextCartItemId == old(nextCartItemId)
      ensures outcome == LoginRequired <==> old(Current(session)).None?
      ensures outcome == Forbidden <==> old(Current(session)).Some? && !RoleRequired(old(Current(session)), ADMIN)
      ensures outcome == NotFound <==> RoleRequired(old(Current(session)), ADMIN) && BrandById(old(brands), brandId).None?
      ensures outcome == Ok <==> RoleRequired(old(Current(session)), ADMIN) && BrandById(old(brands), brandId).Some?
      ensures outcome in {LoginRequired, Forbidden, NotFound, Ok}
      ensures outcome != Ok ==> brands == old(brands)
      ensures outcome == Ok ==> var i := BrandById(old(brands), brandId).value;
        brands == old(brands)[i := old(brands)[i].(name := name, description := description,
                                                   logo := NewFileName(logo, old(brands)[i].logo))]
    {
      var current := Current(session);
      if current.None? { return LoginRequired; }
      if current.value.role != ADMIN { return Forbidden; }
      var found := BrandById(brands, brandId);
      if found.None? { return NotFound; }
      var i := found.value;
      brands := brands[i := brands[i].(name := name, description := description, logo := NewFileName(logo, brands[i].logo))];
      outcome := Ok;
    }

    /** The admin brand delete route. */
    method AdminDeleteBrand(session: Option<int>, brandId: int) returns (outcome: Outcome)
      requires Valid()
      modifies this
      ensures Valid()
      ensures users == old(users) && products == old(products) && cart == old(cart)
      ensures nextUserId == old(nextUserId) && nextBrandId == old(nextBrandId)
      ensures nextProductId == old(nextProductId) && nextCartItemId == old(nextCartItemId)
      ensures outcome == LoginRequired <==> old(Current(session)).None?
      ensures outcome == Forbidden <==> old(Current(session)).Some? && !RoleRequired(old(Current(session)), ADMIN)
      ensures outcome == NotFound <==> RoleRequired(old(Current(session)), ADMIN) && BrandById(old(brands), brandId).None?
      ensures outcome == Ok <==> RoleRequired(old(Current(session)), ADMIN) && BrandById(old(brands), brandId).Some?
      ensures outcome in {LoginRequired, Forbidden, NotFound, Ok}
      ensures outcome != Ok ==> brands == old(brands)
      ensures outcome == Ok ==> var i := BrandById(old(brands), brandId).value;
        brands == old(brands)[..i] + old(brands)[i + 1..]
    {
      var current := Current(session);
      if current.None? { return LoginRequired; }
      if current.value.role != ADMIN { return Forbidden; }
      var found := BrandById(brands, brandId);
      if found.None? { return NotFound; }
      var i := found.value;
      brands := brands[..i] + brands[i + 1..];
      outcome := Ok;
    }

    /** The admin product edit route: title, description, price and image; the
        stock is not touched. The change is committed before the redirect reads
        the product's brand, so a missing brand fails only after the update. */
    method AdminEditProduct(session: Option<int>, productId: int, title: string, description: string, price: int,
                            image: Option<Upload>)
      returns (outcome: Outcome)
      requires Valid()
      modifies this
      ensures Valid()
      ensures users == old(users) && brands == old(brands) && cart == old(cart)
      ensures nextUserId == old(nextUserId) && nextBrandId == old(nextBrandId)
      ensures nextProductId == old(nextProductId) && nextCartItemId == old(nextCartItemId)
      ensures outcome == LoginRequired <==> old(Current(session)).None?
      ensures outcome == Forbidden <==> old(Current(session)).Some? && !RoleRequired(old(Current(session)), ADMIN)
      ensures outcome == NotFound <==> RoleRequired(old(Current(session)), ADMIN) && ProductById(old(products), productId).None?
      ensures outcome in {LoginRequired, Forbidden, NotFound, ServerError, Ok}
      ensures outcome in {LoginRequired, Forbidden, NotFound} ==> products == old(products)
      ensures outcome in {Ok, ServerError} ==> var i := ProductById(old(products), productId).value;
        && products == old(products)[i := old(products)[i].(title := title, description := description, price := price,
                                      image := NewFileName(image, old(products)[i].image))]
        && (outcome == ServerError <==> BrandById(brands, products[i].brandId).None?)
    {
      var current := Current(session);
      if current.None? { return LoginRequired; }
      if current.value.role != ADMIN { return Forbidden; }
      var found := ProductById(products, productId);
      if found.None? { return NotFound; }
      var i := found.value;
      products := products[i := products[i].(title := title, description := description, price := price,
                                             image := NewFileName(image, products[i].image))];
      outcome := if BrandById(brands, products[i].brandId).Some? then Ok else ServerError;
    }

    /** The admin product delete route. */
    method AdminDeleteProduct(session: Option<int>, productId: int) returns (outcome: Outcome)
      requires Valid()
      modifies this
      ensures Valid()
      ensures users == old(users) && brands == old(brands) && cart == old(cart)
      ensures nextUserId == old(nextUserId) && nextBrandId == old(nextBrandId)
      ensures nextProductId == old(nextProductId) && nextCartItemId == old(nextCartItemId)
      ensures outcome == LoginRequired <==> old(Current(session)).None?
      ensures outcome == Forbidden <==> old(Current(session)).Some? && !RoleRequired(old(Current(session)), ADMIN)
      ensures outcome == NotFound <==> RoleRequired(old(Current(session)), ADMIN) && ProductById(old(products), productId).None?
      ensures outcome == Ok <==> RoleRequired(old(Current(session)), ADMIN) && ProductById(old(products), productId).Some?
      ensures outcome in {LoginRequired, Forbidden, NotFound, Ok}
      ensures outcome != Ok ==> products == old(products)
      ensures outcome == Ok ==> var i := ProductById(old(products), productId).value;
        products == old(products)[..i] + old(products)[i + 1..]
    {
      var current := Current(session);
      if current.None? { return LoginRequired; }
      if current.value.role != ADMIN { return Forbidden; }
      var found := ProductById(products, productId);
      if found.None? { return NotFound; }
      var i := found.value;
      products := products[..i] + products[i + 1..];
      outcome := Ok;
    }

    /** The `add_to_cart` route. `quantityField` is the parsed form field, `None`
        when it is absent (the handler then takes 1). */
    method AddToCart(session: Option<int>, productId: int, quantityField: Option<int>) returns (outcome: Outcome)
      requires Valid()
      modifies this
      ensures Valid()
      ensures users == old(users) && brands == old(brands) && products == old(products)
      ensures nextUserId == old(nextUserId) && nextBrandId == old(nextBrandId) && nextProductId == old(nextProductId)
      ensures outcome == LoginRequired <==> old(Current(session)).None?
      ensures outcome == Forbidden <==> old(Current(session)).Some? && !RoleRequired(old(Current(session)), BUYER)
      ensures outcome == NotFound <==> RoleRequired(old(Current(session)), BUYER) && ProductById(products, productId).None?
      ensures outcome == Ok <==>
        && RoleRequired(old(Current(session)), BUYER) && ProductById(products, productId).Some?
        && var q := if quantityField.Some? then quantityField.value else 1;
           1 <= q <= products[ProductById(products, productId).value].quantityAvailable
      ensures outcome in {LoginRequired, Forbidden, NotFound, Invalid, Ok}
      ensures outcome != Ok ==> cart == old(cart) && nextCartItemId == old(nextCartItemId)
      ensures outcome == Ok ==>
        var u := old(Current(session)).value.id;
        var q := if quantityField.Some? then quantityField.value else 1;
        && cart == CartAdd(old(cart), u, productId, q,
                           products[ProductById(products, productId).value].quantityAvailable, old(nextCartItemId))
        && nextCartItemId == old(nextCartItemId) + (if CartItemFor(old(cart), u, productId).Some? then 0 else 1)
    {
      var current := Current(session);
      if current.None? { return LoginRequired; }
      if current.value.role != BUYER { return Forbidden; }
      var found := ProductById(products, productId);
      if found.None? { return NotFound; }
      var stock := products[found.value].quantityAvailable;
      var quantity := if quantityField.Some? then quantityField.value else 1;
      if quantity < 1 || quantity > stock { return Invalid; }
      var u := current.value.id;
      CartAddKeepsValid(cart, u, productId, quantity, stock, nextCartItemId);
      ghost var expected := CartAdd(cart, u, productId, quantity, stock, nextCartItemId);
      var existing := CartItemFor(cart, u, productId);
      if existing.Some? {
        var i := existing.value;
        var newQuantity := cart[i].quantity + quantity;
        if newQuantity > stock {
          newQuantity := stock;
        }
        assert newQuantity == Clamp(cart[i].quantity + quantity, stock);
        cart := cart[i := cart[i].(quantity := newQuantity)];
      } else {
        cart := cart + [CartItem(nextCartItemId, u, productId, quantity)];
        nextCartItemId := nextCartItemId + 1;
      }
      assert cart == expected;
      outcome := Ok;
    }

    /** The `remove_from_cart` route: only the row's owner may delete it. */
    method RemoveFromCart(session: Option<int>, cartItemId: int) returns (outcome: Outcome)
      requires Valid()
      modifies this
      ensures Valid()
      ensures users == old(users) && brands == old(brands) && products == old(products)
      ensures nextUserId == old(nextUserId) && nextBrandId == old(nextBrandId)
      ensures nextProductId == old(nextProductId) && nextCartItemId == old(nextCartItemId)
      ensures outcome == LoginRequired <==> old(Current(session)).None?
      ensures outcome == NotFound <==> old(Current(session)).Some? && CartItemById(old(cart), cartItemId).None?
      ensures outcome == Ok <==>
        && old(Current(session)).Some? && CartItemById(old(cart), cartItemId).Some?
        && old(cart)[CartItemById(old(cart), cartItemId).value].userId == old(Current(session)).value.id
      ensures outcome in {LoginRequired, NotFound, Forbidden, Ok}
      ensures outcome != Ok ==> cart == old(cart)
      ensures outcome == Ok ==> var i := CartItemById(old(cart), cartItemId).value;
        cart == old(cart)[..i] + old(cart)[i + 1..]
    {
      var current := Current(session);
      if current.None? { return LoginRequired; }
      var found := CartItemById(cart, cartItemId);
      if found.None? { return NotFound; }
      var i := found.value;
      if cart[i].userId != current.value.id { return Forbidden; }
      CartValidRemove(cart, nextCartItemId, i);
      cart := cart[..i] + cart[i + 1..];
      outcome := Ok;
    }

    /** The `cart_page` route: the caller's total, for buyers only. */
    function CartPage(session: Option<int>): (r: (Outcome, int))
      reads this
      ensures r.0 in {LoginRequired, Forbidden, ServerError, Ok}
      ensures r.0 == LoginRequired <==> Current(session).None?
      ensures r.0 == Forbidden <==> Current(session).Some? && !RoleRequired(Current(session), BUYER)
      ensures r.0 == ServerError <==>
        RoleRequired(Current(session), BUYER) && CartTotal(cart, products, Current(session).value.id).None?
      ensures r.0 == Ok <==> RoleRequired(Current(session), BUYER) && CartTotal(cart, products, Current(session).value.id).Some?
      ensures r.0 == Ok ==> Some(r.1) == CartTotal(cart, products, Current(session).value.id)
    {
      var current := Current(session);
      if current.None? then (LoginRequired, 0)
      else if current.value.role != BUYER then (Forbidden, 0)
      else match CartTotal(cart, products, current.value.id)
        case None => (ServerError, 0)
        case Some(total) => (Ok, total)
    }
  }
}
