/**
 * Page requests: Sanitize fills in and clamps the page and the page size,
 * Offset turns them into the number of items to skip, and the options
 * override the default and the maximum page size.
 *
 * The fields are Go `uint`s, modelled as 64-bit unsigned integers.
 */
module Pagination {

  const UintModulus: int := 0x1_0000_0000_0000_0000

  newtype uint = x: int | 0 <= x < 0x1_0000_0000_0000_0000

  const DefaultPage: uint := 1
  const MinPage: uint := 1
  const DefaultPageSize: uint := 20
  const MaxPageSize: uint := 500
  const MinPageSize: uint := 1

  datatype Options = Options(maxPageSize: uint, defaultPageSize: uint)

  /** The two setters an option closure can be. */
  datatype PageOption = WithDefaultPageSize(pageSize: uint) | WithMaxPageSize(pageSize: uint)

  /** What an option does to the options it is applied to. */
  function Apply(o: Options, opt: PageOption): (r: Options)
    ensures opt.WithDefaultPageSize? ==> r == o.(defaultPageSize := opt.pageSize)
    ensures opt.WithMaxPageSize? ==> r == o.(maxPageSize := opt.pageSize)
  {
    match opt
    case WithDefaultPageSize(n) => o.(defaultPageSize := n)
    case WithMaxPageSize(n) => o.(maxPageSize := n)
  }

  /** The defaults before any option. */
  const BaseOptions := Options(MaxPageSize, DefaultPageSize)

  /** newOptions */
  method NewOptions(opts: seq<PageOption>) returns (options: Options)
    ensures options == ApplyAll(BaseOptions, opts)
  {
    options := BaseOptions;
    var i := 0;
    while i < |opts|
      invariant i <= |opts|
      invariant ApplyAll(options, opts[i..]) == ApplyAll(BaseOptions, opts)
    {
      assert opts[i..][1..] == opts[i + 1..];
      options := Apply(options, opts[i]);
      i := i + 1;
    }
    assert opts[i..] == [];
  }

  /** The value the last WithDefaultPageSize in `opts` sets, or `fallback`. */
  function LastDefaultPageSize(opts: seq<PageOption>, fallback: uint): uint
    decreases |opts|
  {
    if opts == [] then fallback
    else if opts[|opts| - 1].WithDefaultPageSize? then opts[|opts| - 1].pageSize
    else LastDefaultPageSize(opts[..|opts| - 1], fallback)
  }

  /** The value the last WithMaxPageSize in `opts` sets, or `fallback`. */
  function LastMaxPageSize(opts: seq<PageOption>, fallback: uint): uint
    decreases |opts|
  {
    if opts == [] then fallback
    else if opts[|opts| - 1].WithMaxPageSize? then opts[|opts| - 1].pageSize
    else LastMaxPageSize(opts[..|opts| - 1], fallback)
  }

  /** The last default page size with one more option in front, which decides the fallback. */
  lemma {:induction false} LastDefaultCons(opts: seq<PageOption>, fallback: uint)
    requires opts != []
    ensures LastDefaultPageSize(opts, fallback) ==
      LastDefaultPageSize(opts[1..], if opts[0].WithDefaultPageSize? then opts[0].pageSize else fallback)
    decreases |opts|
  {
    var n := |opts|;
    if n > 1 && !opts[n - 1].WithDefaultPageSize? {
      assert opts[..n - 1][1..] == opts[1..][..n - 2];
      LastDefaultCons(opts[..n - 1], fallback);
    }
  }

  /** The last maximum page size with one more option in front, which decides the fallback. */
  lemma {:induction false} LastMaxCons(opts: seq<PageOption>, fallback: uint)
    requires opts != []
    ensures LastMaxPageSize(opts, fallback) ==
      LastMaxPageSize(opts[1..], if opts[0].WithMaxPageSize? then opts[0].pageSize else fallback)
    decreases |opts|
  {
    var n := |opts|;
    if n > 1 && !opts[n - 1].WithMaxPageSize? {
      assert opts[..n - 1][1..] == opts[1..][..n - 2];
      LastMaxCons(opts[..n - 1], fallback);
    }
  }

  /**
   * The options after applying `opts` from left to right: each field ends up
   * with the value its last setter gives it, and a field no option sets
   * keeps its value.
   */
  function ApplyAll(o: Options, opts: seq<PageOption>): (r: Options)
    ensures r.defaultPageSize == LastDefaultPageSize(opts, o.defaultPageSize)
    ensures r.maxPageSize == LastMaxPageSize(opts, o.maxPageSize)
    decreases |opts|
  {
    if opts == [] then o
    else
      LastDefaultCons(opts, o.defaultPageSize);
      LastMaxCons(opts, o.maxPageSize);
      ApplyAll(Apply(o, opts[0]), opts[1..])
  }

  /** One more option at the end overrides only its own field. */
  lemma {:induction false} ApplyAllSnoc(o: Options, opts: seq<PageOption>, opt: PageOption)
    ensures ApplyAll(o, opts + [opt]) == Apply(ApplyAll(o, opts), opt)
    decreases |opts|
  {
    if opts == [] {
      assert [opt][1..] == [];
    } else {
      assert (opts + [opt])[1..] == opts[1..] + [opt];
      ApplyAllSnoc(Apply(o, opts[0]), opts[1..], opt);
    }
  }

  /** Without options the default page size is 20 and the maximum 500. */
  lemma NoOptionsAreDefaults()
    ensures ApplyAll(BaseOptions, []) == Options(500, 20)
  {
  }

  /** The page Sanitize leaves: 0 becomes 1. */
  function SanitizedPage(page: uint): (r: uint)
    ensures r >= MinPage
    ensures page >= MinPage ==> r == page
    ensures page < MinPage ==> r == DefaultPage
  {
    if page < MinPage then DefaultPage else page
  }

  /** The page size Sanitize leaves: 0 becomes the default, above the maximum the maximum. */
  function SanitizedPageSize(pageSize: uint, options: Options): (r: uint)
    ensures pageSize < MinPageSize ==> r == options.defaultPageSize
    ensures pageSize > options.maxPageSize && pageSize >= MinPageSize ==> r == options.maxPageSize
    ensures MinPageSize <= pageSize <= options.maxPageSize ==> r == pageSize
  {
    if pageSize < MinPageSize then options.defaultPageSize
    else if pageSize > options.maxPageSize then options.maxPageSize
    else pageSize
  }

  /** The items before a page plus one page are the items up to its end. */
  lemma OnePageMore(page: int, pageSize: int)
    ensures (page - 1) * pageSize + pageSize == page * pageSize
  {
    assert (page - 1) * pageSize == page * pageSize - pageSize;
  }

  /** An integer reduced into uint's range, as a Go conversion of a wider result does. */
  function Wrap(v: int): (r: uint)
    ensures 0 <= v < UintModulus ==> r as int == v
    ensures -UintModulus < v < 0 ==> r as int == UintModulus + v
  {
    (v % UintModulus) as uint
  }

  /**
   * (page - 1) * pageSize in uint arithmetic, which wraps around: the items
   * on the earlier pages while the product fits, and for page 0 the page
   * size below 2^64.
   */
  function OffsetOf(page: uint, pageSize: uint): (r: uint)
    ensures page >= 1 && (page as int - 1) * pageSize as int < UintModulus ==>
      r as int == (page as int - 1) * pageSize as int && r as int + pageSize as int == page as int * pageSize as int
    ensures page == 0 && pageSize > 0 ==> r as int == UintModulus - pageSize as int
  {
    var product := (page as int - 1) * pageSize as int;
    OnePageMore(page as int, pageSize as int);
    assert page >= 1 ==> product >= 0;
    assert page == 0 ==> product == -(pageSize as int);
    Wrap(product)
  }

  /** With the default options a sanitized request has a page from 1 and a page size from 1 to 500. */
  lemma DefaultSanitizeBounds(page: uint, pageSize: uint)
    ensures SanitizedPage(page) >= 1
    ensures 1 <= SanitizedPageSize(pageSize, ApplyAll(BaseOptions, [])) <= 500
  {
  }

  /** Sanitizing twice is sanitizing once, when the default page size is within 1 and the maximum. */
  lemma SanitizeIdempotent(page: uint, pageSize: uint, options: Options)
    requires MinPageSize <= options.defaultPageSize <= options.maxPageSize
    ensures SanitizedPage(SanitizedPage(page)) == SanitizedPage(page)
    ensures SanitizedPageSize(SanitizedPageSize(pageSize, options), options) == SanitizedPageSize(pageSize, options)
  {
  }

  /**
   * With a default page size above the maximum, Sanitize is not idempotent:
   * a missing page size becomes the default, which a second call clamps.
   */
  lemma SanitizeNotIdempotentWhenDefaultExceedsMax()
    ensures var options := Options(10, 50);
      SanitizedPageSize(0, options) == 50 && SanitizedPageSize(SanitizedPageSize(0, options), options) == 10
  {
  }

  /** A product past the range of uint wraps around: page 2^63 + 1 of 2 items skips no item. */
  lemma OffsetWrapsAround()
    ensures OffsetOf(0x8000_0000_0000_0001, 2) == 0
  {
  }

  class PageReq {
    var page: uint
    var pageSize: uint

    constructor (page: uint, pageSize: uint)
      ensures this.page == page && this.pageSize == pageSize
    {
      this.page := page;
      this.pageSize := pageSize;
    }

    /** Sanitize */
    method Sanitize(opts: seq<PageOption>)
      modifies this
      ensures page == SanitizedPage(old(page))
      ensures pageSize == SanitizedPageSize(old(pageSize), ApplyAll(BaseOptions, opts))
    {
      var options := NewOptions(opts);
      if page < MinPage {
        page := DefaultPage;
      }
      if pageSize < MinPageSize {
        pageSize := options.defaultPageSize;
        return;
      }
      if pageSize > options.maxPageSize {
        pageSize := options.maxPageSize;
        return;
      }
    }

    /**
     * Offset: sanitizes with the default options only when the page or the
     * page size is 0, so a page size above 500 on a non-zero page is used
     * as it is.
     */
    method Offset() returns (r: uint)
      modifies this
      ensures old(page) == 0 || old(pageSize) == 0 ==>
        page == SanitizedPage(old(page)) && pageSize == SanitizedPageSize(old(pageSize), BaseOptions)
      ensures old(page) != 0 && old(pageSize) != 0 ==> page == old(page) && pageSize == old(pageSize)
      ensures page >= 1 && r == OffsetOf(page, pageSize)
    {
      if page <= 0 || pageSize <= 0 {
        Sanitize([]);
      }
      r := (((page as int - 1) * pageSize as int) % UintModulus) as uint;
    }

    /** Default */
    method Default()
      modifies this
      ensures page == 1 && pageSize == 20
    {
      page := DefaultPage;
      pageSize := DefaultPageSize;
    }
  }
}
