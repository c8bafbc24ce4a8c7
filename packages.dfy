/**
 * The package enumerator: `recursive_collect_packages` lists a package and,
 * sub-package by sub-package, everything below it; `get_all_packages` does so
 * for every top-level model and concatenates the listings.
 */
module PackageEnumerator {
  import opened Fixture

  /** Pre-order listing of the subtree rooted at `p`. */
  function PreOrder(p: Package): (r: seq<Package>)
    decreases p, 1
    ensures |r| >= 1 && r[0] == p
  {
    [p] + PreOrderAll(p.packages)
  }

  /** The pre-order listings of `ps`, concatenated in order. */
  function PreOrderAll(ps: seq<Package>): seq<Package>
    decreases ps, 0
  {
    if ps == [] then [] else PreOrderAll(ps[..|ps| - 1]) + PreOrder(ps[|ps| - 1])
  }

  /** The number of packages in the subtree rooted at `p`. */
  function Count(p: Package): nat
    decreases p, 1
  {
    1 + CountAll(p.packages)
  }

  function CountAll(ps: seq<Package>): nat
    decreases ps, 0
  {
    if ps == [] then 0 else CountAll(ps[..|ps| - 1]) + Count(ps[|ps| - 1])
  }

  /** `q` is `p` or lies below one of `p`'s sub-packages. */
  ghost predicate InSubtree(q: Package, p: Package)
    decreases p
  {
    q == p || exists k :: 0 <= k < |p.packages| && InSubtree(q, p.packages[k])
  }

  /** `q` lies in the subtree of one of `ps`. */
  ghost predicate InForest(q: Package, ps: seq<Package>)
  {
    exists k :: 0 <= k < |ps| && InSubtree(q, ps[k])
  }

  /** `recursive_collect_packages`: the recursion with its loop over `Packages`. */
  method RecursiveCollectPackages(p: Package) returns (packages: seq<Package>)
    decreases p
    ensures packages == PreOrder(p)
  {
    packages := [p];
    var subPackages := p.packages;
    for i := 0 to |subPackages|
      invariant packages == [p] + PreOrderAll(subPackages[..i])
    {
      var sub := RecursiveCollectPackages(subPackages[i]);
      assert subPackages[..i + 1][..i] == subPackages[..i];
      packages := packages + sub;
    }
    assert subPackages[..|subPackages|] == subPackages;
  }

  /** Every package of the repository, model by model. */
  function AllPackages(repo: Repository): seq<Package>
  {
    PreOrderAll(repo.models)
  }

  /** `get_all_packages`: the loop over `repository.Models`. */
  method GetAllPackages(repo: Repository) returns (packages: seq<Package>)
    ensures packages == AllPackages(repo)
  {
    packages := [];
    var models := repo.models;
    for i := 0 to |models|
      invariant packages == PreOrderAll(models[..i])
    {
      var listing := RecursiveCollectPackages(models[i]);
      assert models[..i + 1][..i] == models[..i];
      packages := packages + listing;
    }
    assert models[..|models|] == models;
  }

  /** The listing holds exactly one entry per package of the subtree. */
  lemma {:induction false} PreOrderLength(p: Package)
    decreases p, 1
    ensures |PreOrder(p)| == Count(p)
  {
    PreOrderAllLength(p.packages);
  }

  lemma {:induction false} PreOrderAllLength(ps: seq<Package>)
    decreases ps, 0
    ensures |PreOrderAll(ps)| == CountAll(ps)
  {
    if ps != [] {
      PreOrderAllLength(ps[..|ps| - 1]);
      PreOrderLength(ps[|ps| - 1]);
    }
  }

  /** The listing holds exactly the packages of the subtree. */
  lemma {:induction false} PreOrderMembers(p: Package, q: Package)
    decreases p, 1
    ensures q in PreOrder(p) <==> InSubtree(q, p)
  {
    PreOrderAllMembers(p.packages, q);
  }

  lemma {:induction false} PreOrderAllMembers(ps: seq<Package>, q: Package)
    decreases ps, 0
    ensures q in PreOrderAll(ps) <==> InForest(q, ps)
  {
    if ps != [] {
      var init, last := ps[..|ps| - 1], ps[|ps| - 1];
      PreOrderAllMembers(init, q);
      PreOrderMembers(last, q);
      if InForest(q, ps) {
        var k :| 0 <= k < |ps| && InSubtree(q, ps[k]);
        if k < |ps| - 1 {
          assert init[k] == ps[k];
        }
      }
      if InForest(q, init) {
        var k :| 0 <= k < |init| && InSubtree(q, init[k]);
        assert ps[k] == init[k];
      }
    }
  }

  /** Listing a forest in two parts and concatenating gives the whole listing. */
  lemma {:induction false} PreOrderAllAppend(a: seq<Package>, b: seq<Package>)
    decreases |b|
    ensures PreOrderAll(a + b) == PreOrderAll(a) + PreOrderAll(b)
  {
    if b != [] {
      var b' := b[..|b| - 1];
      assert (a + b)[..|a + b| - 1] == a + b';
      assert (a + b)[|a + b| - 1] == b[|b| - 1];
      PreOrderAllAppend(a, b');
    } else {
      assert a + b == a;
    }
  }

  /** The repository listing holds exactly the packages below some model. */
  lemma AllPackagesMembers(repo: Repository, q: Package)
    ensures q in AllPackages(repo) <==> InForest(q, repo.models)
  {
    PreOrderAllMembers(repo.models, q);
  }

  /** The repository listing is the models' listings one after another. */
  lemma {:induction false} AllPackagesByModel(repo: Repository, k: nat)
    requires k < |repo.models|
    ensures AllPackages(repo)
         == PreOrderAll(repo.models[..k]) + PreOrder(repo.models[k]) + PreOrderAll(repo.models[k + 1..])
  {
    var ms := repo.models;
    assert ms == ms[..k] + [ms[k]] + ms[k + 1..];
    PreOrderAllAppend(ms[..k] + [ms[k]], ms[k + 1..]);
    PreOrderAllAppend(ms[..k], [ms[k]]);
    assert PreOrderAll([ms[k]]) == PreOrder(ms[k]) by {
      assert [ms[k]][..0] == [];
    }
  }
}
