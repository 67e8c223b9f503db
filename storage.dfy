/**
 * The in-memory repository of the server (server/storage.ts, class
 * MemStorage): two id-keyed maps that remember their insertion order, and two
 * id counters. Every method runs to completion before the next starts.
 */
module Storage {
  import opened Wrappers
  import opened Schema

  /** The index of the first element satisfying `pred` (`Array.prototype.findIndex`). */
  function FirstIndex<T>(xs: seq<T>, pred: T -> bool): (r: Option<nat>)
    ensures r.Some? ==> r.value < |xs| && pred(xs[r.value])
                        && forall j :: 0 <= j < r.value ==> !pred(xs[j])
    ensures r.None? ==> forall j :: 0 <= j < |xs| ==> !pred(xs[j])
  {
    if xs == [] then None
    else if pred(xs[0]) then Some(0)
    else match FirstIndex(xs[1..], pred)
      case None => None
      case Some(k) => Some(k + 1)
  }

  /** `Array.prototype.find`: the first element satisfying `pred`, if any. */
  function Find<T>(xs: seq<T>, pred: T -> bool): Option<T>
  {
    match FirstIndex(xs, pred)
    case None => None
    case Some(i) => Some(xs[i])
  }

  /** The first satisfying index is the only index with the two properties of the first. */
  lemma FirstIndexUnique<T>(xs: seq<T>, pred: T -> bool, i: nat)
    requires i < |xs| && pred(xs[i]) && forall j :: 0 <= j < i ==> !pred(xs[j])
    ensures FirstIndex(xs, pred) == Some(i)
  {
  }

  /**
   * Appending never changes an element already found, and where nothing was
   * found the result is that of the appended part.
   */
  lemma FindAppend<T>(xs: seq<T>, ys: seq<T>, pred: T -> bool)
    ensures Find(xs, pred).Some? ==> Find(xs + ys, pred) == Find(xs, pred)
    ensures Find(xs, pred).None? ==> Find(xs + ys, pred) == Find(ys, pred)
  {
    var zs := xs + ys;
    match FirstIndex(xs, pred)
    case Some(i) =>
      FirstIndexUnique(zs, pred, i);
    case None =>
      match FirstIndex(ys, pred)
      case Some(k) =>
        FirstIndexUnique(zs, pred, |xs| + k);
      case None =>
        forall j | 0 <= j < |zs| ensures !pred(zs[j]) {
          if j < |xs| {
            assert zs[j] == xs[j];
          } else {
            assert zs[j] == ys[j - |xs|];
          }
        }
  }

  /** The values of `m` under `keys`, in the order of `keys`. */
  function ValuesInOrder<V>(m: map<int, V>, keys: seq<int>): (r: seq<V>)
    requires forall i :: 0 <= i < |keys| ==> keys[i] in m
    ensures |r| == |keys|
    ensures forall i :: 0 <= i < |keys| ==> r[i] == m[keys[i]]
  {
    if keys == [] then [] else [m[keys[0]]] + ValuesInOrder(m, keys[1..])
  }

  /** Storing a value under a new key that is appended to the key list appends the value. */
  lemma ValuesInOrderSnoc<V>(m: map<int, V>, keys: seq<int>, k: int, v: V)
    requires forall i :: 0 <= i < |keys| ==> keys[i] in m
    requires k !in keys
    ensures ValuesInOrder(m[k := v], keys + [k]) == ValuesInOrder(m, keys) + [v]
  {
    var m', keys' := m[k := v], keys + [k];
    var a, b := ValuesInOrder(m', keys'), ValuesInOrder(m, keys) + [v];
    forall i | 0 <= i < |keys'| ensures a[i] == b[i] {
      if i < |keys| {
        assert keys'[i] == keys[i] && keys[i] != k;
      }
    }
  }

  /** The keys 1, 2, ..., next - 1 in insertion order. */
  ghost predicate KeysUpTo(keys: seq<int>, next: int)
  {
    |keys| == next - 1 && forall i :: 0 <= i < |keys| ==> keys[i] == i + 1
  }

  /** `p` with the ids `first`, `first + 1`, ... in turn. */
  function Numbered(ps: seq<Product>, first: int): (r: seq<Product>)
    ensures |r| == |ps|
    ensures forall i :: 0 <= i < |ps| ==> r[i] == ps[i].(id := first + i)
  {
    if ps == [] then [] else [ps[0].(id := first)] + Numbered(ps[1..], first + 1)
  }

  lemma NumberedSnoc(ps: seq<Product>, p: Product, first: int)
    ensures Numbered(ps + [p], first) == Numbered(ps, first) + [p.(id := first + |ps|)]
  {
    var a, b := Numbered(ps + [p], first), Numbered(ps, first) + [p.(id := first + |ps|)];
    assert |a| == |b|;
    forall i | 0 <= i < |a| ensures a[i] == b[i] {
      if i < |ps| {
        assert (ps + [p])[i] == ps[i];
      }
    }
  }

  /** One step of seeding: the list so far plus the record just created. */
  lemma ListStep(start: seq<Product>, ps: seq<Product>, i: nat, first: int,
                 before: seq<Product>, created: Product)
    requires i < |ps|
    requires before == start + Numbered(ps[..i], first)
    requires created == ps[i].(id := first + i)
    ensures before + [created] == start + Numbered(ps[..i + 1], first)
  {
    var lhs, rhs := before + [created], start + Numbered(ps[..i + 1], first);
    var n := |start|;
    assert |lhs| == |rhs| == n + i + 1;
    forall j | 0 <= j < |lhs| ensures lhs[j] == rhs[j] {
      if j < n {
        assert lhs[j] == before[j] == start[j];
      } else if j < n + i {
        assert lhs[j] == before[j] == Numbered(ps[..i], first)[j - n];
        assert ps[..i][j - n] == ps[j - n] == ps[..i + 1][j - n];
      } else {
        assert lhs[j] == created;
        assert ps[..i + 1][i] == ps[i];
      }
    }
  }

  /** The two records the store is seeded with (their `id` is replaced when stored). */
  function SampleProducts(): seq<Product>
  {
    [ Product(
        id := 0,
        barcode := "123456789",
        name := "Natural Moisturizer",
        brand := "PureBeauty",
        category := "Cosmetics",
        size := None,
        imageUrl := None,
        ingredients := ["Aqua", "Glycerin", "Aloe Vera", "Vitamin E"],
        additives := None,
        analysis := Analysis(
          riskLevel := Low,
          warnings := [],
          goodIngredients := ["Aloe Vera", "Vitamin E"],
          badIngredients := [],
          nutriScore := None,
          novaScore := None,
          foodScore := None)),
      Product(
        id := 0,
        barcode := "987654321",
        name := "Ultra Clean Shampoo",
        brand := "HairCare",
        category := "Cosmetics",
        size := None,
        imageUrl := None,
        ingredients := ["Aqua", "Sodium Laureth Sulfate", "Parfum", "Parabens"],
        additives := None,
        analysis := Analysis(
          riskLevel := Medium,
          warnings := ["Contains Sulfates", "Contains Parabens"],
          goodIngredients := [],
          badIngredients := ["Sodium Laureth Sulfate", "Parabens"],
          nutriScore := None,
          novaScore := None,
          foodScore := None)) ]
  }

  class MemStorage {
    var users: map<int, User>
    var userKeys: seq<int>         // keys of `users` in insertion order
    var products: map<int, Product>
    var productKeys: seq<int>      // keys of `products` in insertion order
    var currentUserId: int
    var currentProductId: int

    /**
     * Both counters are at least 1; the keys are exactly 1 .. counter - 1, in
     * insertion order; every record's id is its key.
     */
    ghost predicate Valid()
      reads this
    {
      && currentUserId >= 1 && currentProductId >= 1
      && KeysUpTo(userKeys, currentUserId)
      && KeysUpTo(productKeys, currentProductId)
      && (forall k :: k in users <==> 1 <= k < currentUserId)
      && (forall k :: k in products <==> 1 <= k < currentProductId)
      && (forall k :: k in users ==> users[k].id == k)
      && (forall k :: k in products ==> products[k].id == k)
    }

    /** `Array.from(this.users.values())`: the users in insertion order, which is id order. */
    function UserList(): (r: seq<User>)
      reads this
      requires Valid()
      ensures |r| == currentUserId - 1
      ensures forall i :: 0 <= i < |r| ==> r[i] == users[i + 1] && r[i].id == i + 1
    {
      ValuesInOrder(users, userKeys)
    }

    /** `Array.from(this.products.values())`: the products in insertion order, which is id order. */
    function ProductList(): (r: seq<Product>)
      reads this
      requires Valid()
      ensures |r| == currentProductId - 1
      ensures forall i :: 0 <= i < |r| ==> r[i] == products[i + 1] && r[i].id == i + 1
    {
      ValuesInOrder(products, productKeys)
    }

    /** An empty store seeded with the two sample products, which get ids 1 and 2. */
    constructor ()
      ensures Valid()
      ensures users == map[] && UserList() == [] && currentUserId == 1
      ensures currentProductId == 3
      ensures ProductList() == Numbered(SampleProducts(), 1)
      ensures products.Keys == {1, 2}
      ensures products[1].barcode == "123456789" && products[2].barcode == "987654321"
    {
      users := map[];
      userKeys := [];
      products := map[];
      productKeys := [];
      currentUserId := 1;
      currentProductId := 1;
      new;
      InitializeSampleProducts();
      assert ProductList()[0] == products[1] && ProductList()[1] == products[2];
      assert forall k :: k in products.Keys <==> k in {1, 2};
    }

    /** `initializeSampleProducts`: one `createProduct` per sample, in order. */
    method InitializeSampleProducts()
      requires Valid()
      modifies this
      ensures Valid()
      ensures users == old(users) && userKeys == old(userKeys) && currentUserId == old(currentUserId)
      ensures currentProductId == old(currentProductId) + |SampleProducts()|
      ensures ProductList() == old(ProductList()) + Numbered(SampleProducts(), old(currentProductId))
    {
      CreateProducts(SampleProducts());
    }

    /** The `forEach` of `createProduct` over a list of records. */
    method CreateProducts(samples: seq<Product>)
      requires Valid()
      modifies this
      ensures Valid()
      ensures users == old(users) && userKeys == old(userKeys) && currentUserId == old(currentUserId)
      ensures currentProductId == old(currentProductId) + |samples|
      ensures ProductList() == old(ProductList()) + Numbered(samples, old(currentProductId))
    {
      for i := 0 to |samples|
        invariant Valid()
        invariant users == old(users) && userKeys == old(userKeys) && currentUserId == old(currentUserId)
        invariant currentProductId == old(currentProductId) + i
        invariant ProductList() == old(ProductList()) + Numbered(samples[..i], old(currentProductId))
      {
        ghost var before := ProductList();
        var created := CreateProduct(samples[i]);
        ListStep(old(ProductList()), samples, i, old(currentProductId), before, created);
      }
      assert samples[..|samples|] == samples;
    }

    /** `getUser`: the user stored under `id`, if any. */
    method GetUser(id: int) returns (r: Option<User>)
      requires Valid()
      ensures r.Some? <==> 1 <= id < currentUserId
      ensures r.Some? ==> r.value == users[id] && r.value.id == id
    {
      if id in users {
        r := Some(users[id]);
      } else {
        r := None;
      }
    }

    /** `getUserByUsername`: the earliest-inserted user with that name, if any. */
    method GetUserByUsername(username: string) returns (r: Option<User>)
      requires Valid()
      ensures r == Find(UserList(), (u: User) => u.username == username)
      ensures r.None? <==> forall k :: k in users ==> users[k].username != username
      ensures r.Some? ==> r.value.id in users && users[r.value.id] == r.value
                          && r.value.username == username
      ensures r.Some? ==> forall k :: k in users && users[k].username == username ==> r.value.id <= k
    {
      var list := UserList();
      r := Find(list, (u: User) => u.username == username);
      var i := FirstIndex(list, (u: User) => u.username == username);
      if i.None? {
        forall k | k in users ensures users[k].username != username {
          assert list[k - 1] == users[k];
        }
      } else {
        forall k | k in users && users[k].username == username ensures r.value.id <= k {
          assert list[k - 1] == users[k];
        }
      }
    }

    /** `createUser`: stores the record under the next id; no username check. */
    method CreateUser(insertUser: User) returns (user: User)
      requires Valid()
      modifies this
      ensures Valid()
      ensures user == insertUser.(id := old(currentUserId))
      ensures user.id !in old(users)
      ensures currentUserId == old(currentUserId) + 1
      ensures users == old(users)[user.id := user]
      ensures userKeys == old(userKeys) + [user.id]
      ensures UserList() == old(UserList()) + [user]
      ensures products == old(products) && productKeys == old(productKeys)
      ensures currentProductId == old(currentProductId)
    {
      var id := currentUserId;
      currentUserId := currentUserId + 1;
      user := insertUser.(id := id);
      assert id !in userKeys;
      ValuesInOrderSnoc(users, userKeys, id, user);
      users := users[id := user];
      userKeys := userKeys + [id];
    }

    /**
     * `updateUserPreferences`: fails for an unknown id and changes nothing;
     * otherwise replaces that user's preferences as a whole and nothing else.
     */
    method UpdateUserPreferences(id: int, preferences: Option<Preferences>)
      returns (r: Result<User, string>)
      requires Valid()
      modifies this
      ensures Valid()
      ensures id !in old(users) ==> r == Failure("User not found") && users == old(users)
      ensures id in old(users) ==>
                && r == Success(old(users)[id].(preferences := preferences))
                && r.value.id == id
                && r.value.username == old(users)[id].username
                && r.value.password == old(users)[id].password
                && users == old(users)[id := r.value]
      ensures |UserList()| == |old(UserList())|
      ensures forall i :: 0 <= i < |UserList()| ==>
                UserList()[i] == if r.Success? && i + 1 == id then r.value else old(UserList())[i]
      ensures userKeys == old(userKeys) && currentUserId == old(currentUserId)
      ensures products == old(products) && productKeys == old(productKeys)
      ensures currentProductId == old(currentProductId)
    {
      var found := GetUser(id);
      if found.None? {
        r := Failure("User not found");
        return;
      }
      var updated := found.value.(preferences := preferences);
      users := users[id := updated];
      r := Success(updated);
    }

    /** `getProduct`: the product stored under `id`, if any. */
    method GetProduct(id: int) returns (r: Option<Product>)
      requires Valid()
      ensures r.Some? <==> 1 <= id < currentProductId
      ensures r.Some? ==> r.value == products[id] && r.value.id == id
    {
      if id in products {
        r := Some(products[id]);
      } else {
        r := None;
      }
    }

    /** `getProductByBarcode`: the earliest-inserted product with that barcode, if any. */
    method GetProductByBarcode(barcode: string) returns (r: Option<Product>)
      requires Valid()
      ensures r == Find(ProductList(), (p: Product) => p.barcode == barcode)
      ensures r.None? <==> forall k :: k in products ==> products[k].barcode != barcode
      ensures r.Some? ==> r.value.id in products && products[r.value.id] == r.value
                          && r.value.barcode == barcode
      ensures r.Some? ==> forall k :: k in products && products[k].barcode == barcode ==> r.value.id <= k
    {
      var list := ProductList();
      r := Find(list, (p: Product) => p.barcode == barcode);
      var i := FirstIndex(list, (p: Product) => p.barcode == barcode);
      if i.None? {
        forall k | k in products ensures products[k].barcode != barcode {
          assert list[k - 1] == products[k];
        }
      } else {
        forall k | k in products && products[k].barcode == barcode ensures r.value.id <= k {
          assert list[k - 1] == products[k];
        }
      }
    }

    /** `createProduct`: stores the record under the next id; no barcode check. */
    method CreateProduct(insertProduct: Product) returns (product: Product)
      requires Valid()
      modifies this
      ensures Valid()
      ensures product == insertProduct.(id := old(currentProductId))
      ensures product.id !in old(products)
      ensures currentProductId == old(currentProductId) + 1
      ensures products == old(products)[product.id := product]
      ensures productKeys == old(productKeys) + [product.id]
      ensures ProductList() == old(ProductList()) + [product]
      ensures users == old(users) && userKeys == old(userKeys)
      ensures currentUserId == old(currentUserId)
    {
      var id := currentProductId;
      currentProductId := currentProductId + 1;
      product := insertProduct.(id := id);
      assert id !in productKeys;
      ValuesInOrderSnoc(products, productKeys, id, product);
      products := products[id := product];
      productKeys := productKeys + [id];
    }

    /** `getAllProducts`: every product once, in insertion order, which is increasing id order. */
    method GetAllProducts() returns (all: seq<Product>)
      requires Valid()
      ensures all == ProductList()
      ensures |all| == currentProductId - 1
      ensures forall i :: 0 <= i < |all| ==> all[i] == products[i + 1]
      ensures forall i, j :: 0 <= i < j < |all| ==> all[i].id < all[j].id
    {
      all := ProductList();
    }
  }

  /**
   * Creating the same record twice stores two records with distinct ids; the
   * list grows by two and lookup by barcode keeps answering as before the
   * second create.
   */
  method CreateProductTwice(s: MemStorage, p: Product) returns (first: Product, second: Product)
    requires s.Valid()
    modifies s
    ensures s.Valid()
    ensures first.barcode == p.barcode && second.barcode == p.barcode && first.id < second.id
    ensures first.id in s.products && s.products[first.id] == first
    ensures second.id in s.products && s.products[second.id] == second
    ensures |s.ProductList()| == |old(s.ProductList())| + 2
    ensures Find(s.ProductList(), (q: Product) => q.barcode == p.barcode).Some?
    ensures Find(s.ProductList(), (q: Product) => q.barcode == p.barcode)
            == Find(old(s.ProductList()) + [first], (q: Product) => q.barcode == p.barcode)
  {
    ghost var before := s.ProductList();
    first := s.CreateProduct(p);
    ghost var middle := s.ProductList();
    second := s.CreateProduct(p);
    var pred := (q: Product) => q.barcode == p.barcode;
    FindAppend(before, [first], pred);
    assert (before + [first])[|before|] == first && pred(first);
    FindAppend(middle, [second], pred);
  }

  /** Creating two users with one username stores both; lookup by name gives the earlier. */
  method CreateUserTwice(s: MemStorage, u: User) returns (first: User, second: User, found: Option<User>)
    requires s.Valid()
    modifies s
    ensures s.Valid()
    ensures first.username == u.username && second.username == u.username && first.id < second.id
    ensures first.id in s.users && s.users[first.id] == first
    ensures second.id in s.users && s.users[second.id] == second
    ensures found.Some? && found.value.username == u.username && found.value.id <= first.id
  {
    first := s.CreateUser(u);
    second := s.CreateUser(u);
    found := s.GetUserByUsername(u.username);
  }
}
