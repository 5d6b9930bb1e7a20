/** src/scripts/utils/Draft-ui.js: the text of one rendered draft item, and
    the clear-then-append loop over a container's children. An element is
    reduced to the strings the function writes into it; the formatted date
    is kept as the timestamp it is formatted from. */
module DraftUi {
  import opened JsModel

  // ---------------------------------------------------------------------------
  // `s.replace(/</g, '&lt;')`

  const LtEntity: string := "&lt;"

  function Escape(s: string): (r: string)
    decreases |s|
  {
    if s == [] then []
    else (if s[0] == '<' then LtEntity else [s[0]]) + Escape(s[1..])
  }

  /** Escaping leaves no `<`. */
  lemma {:induction false} EscapeHasNoLt(s: string)
    ensures '<' !in Escape(s)
    decreases |s|
  {
    if s != [] {
      EscapeHasNoLt(s[1..]);
    }
  }

  /** Escaping works character by character: each `<` becomes `&lt;` and
      every other character is copied. */
  lemma {:induction false} EscapeConcat(a: string, b: string)
    ensures Escape(a + b) == Escape(a) + Escape(b)
    decreases |a|
  {
    if a != [] {
      assert (a + b)[1..] == a[1..] + b;
      EscapeConcat(a[1..], b);
    } else {
      assert a + b == b;
    }
  }

  /** A string without `<` is left as it is, so escaping twice is escaping once. */
  lemma {:induction false} EscapeWithoutLt(s: string)
    requires '<' !in s
    ensures Escape(s) == s
    decreases |s|
  {
    if s != [] {
      EscapeWithoutLt(s[1..]);
      assert s == [s[0]] + s[1..];
    }
  }

  lemma EscapeIdempotent(s: string)
    ensures Escape(Escape(s)) == Escape(s)
  {
    EscapeHasNoLt(s);
    EscapeWithoutLt(Escape(s));
  }

  /** Each `<` adds three characters. */
  lemma {:induction false} EscapeLength(s: string)
    ensures |Escape(s)| == |s| + 3 * multiset(s)['<']
    decreases |s|
  {
    if s != [] {
      EscapeLength(s[1..]);
      assert s == [s[0]] + s[1..];
    }
  }

  // ---------------------------------------------------------------------------
  // String(n) for the integers a key generator hands out

  function DigitChar(d: int): char
    requires 0 <= d < 10
  {
    ('0' as int + d) as char
  }

  function Digits(n: nat): (r: string)
    ensures r != []
    ensures forall c :: c in r ==> '0' <= c <= '9'
    decreases n
  {
    if n < 10 then [DigitChar(n)] else Digits(n / 10) + [DigitChar(n % 10)]
  }

  /** The decimal numeral of an integer, with a leading `-` when negative. */
  function Decimal(n: int): string
  {
    if n < 0 then "-" + Digits(-n) else Digits(n)
  }

  /** Reading a string of digits back as a number. */
  function DigitsValue(s: string): int
    decreases |s|
  {
    if s == [] then 0 else DigitsValue(s[..|s| - 1]) * 10 + (s[|s| - 1] as int - '0' as int)
  }

  /** The numeral of a natural number reads back as that number. */
  lemma {:induction false} DigitsRoundTrip(n: nat)
    ensures DigitsValue(Digits(n)) == n
    decreases n
  {
    if n >= 10 {
      DigitsRoundTrip(n / 10);
      var s := Digits(n / 10) + [DigitChar(n % 10)];
      assert s[..|s| - 1] == Digits(n / 10);
    }
  }

  /** What assigning `v` to `dataset.id` stores. */
  function DomString(v: Value): string
  {
    match v
    case Undefined => "undefined"
    case Null => "null"
    case Bool(b) => if b then "true" else "false"
    case Num(n) => Decimal(n)
    case Str(s) => s
  }

  // ---------------------------------------------------------------------------
  // renderDraftItem

  const UntitledText: string := "Untitled"

  datatype DraftItem = DraftItem(id: string, titleHtml: string, timestamp: Value, contentHtml: string)

  /** `(v || fallback).replace(...)`: `None` when a truthy non-string has no `replace`. */
  function EscapedOr(v: Value, fallback: string): (r: Option<string>)
    ensures r.None? <==> Truthy(v) && !v.Str?
    ensures r.Some? ==> '<' !in r.value
    ensures r.Some? && Truthy(v) ==> r.value == Escape(v.s)
    ensures !Truthy(v) ==> r == Some(Escape(fallback))
    ensures r.Some? ==> Or(v, Str(fallback)).Str? && r.value == Escape(Or(v, Str(fallback)).s)
  {
    EscapeHasNoLt(fallback);
    if Truthy(v) then
      if v.Str? then EscapeHasNoLt(v.s); Some(Escape(v.s)) else None
    else Some(Escape(fallback))
  }

  /** renderDraftItem: `None` when the title or content is truthy but not a
      string, so that `replace` throws. */
  function RenderDraftItem(draft: Record, now: int): (r: Option<DraftItem>)
    ensures r.None? <==> ((Truthy(Get(draft, "title")) && !Get(draft, "title").Str?)
                          || (Truthy(Get(draft, "content")) && !Get(draft, "content").Str?))
    ensures r.Some? ==> '<' !in r.value.titleHtml && '<' !in r.value.contentHtml
    ensures r.Some? && !Truthy(Get(draft, "title")) ==> r.value.titleHtml == UntitledText
    ensures r.Some? && !Truthy(Get(draft, "content")) ==> r.value.contentHtml == ""
    ensures r.Some? && Truthy(Get(draft, "title")) ==> r.value.titleHtml == Escape(Get(draft, "title").s)
    ensures r.Some? && Truthy(Get(draft, "content")) ==> r.value.contentHtml == Escape(Get(draft, "content").s)
    ensures r.Some? ==> r.value.id == (if Get(draft, "id").Undefined? || Get(draft, "id").Null? then ""
                                       else DomString(Get(draft, "id")))
    ensures r.Some? && Truthy(Get(draft, "createdAt")) ==> r.value.timestamp == Get(draft, "createdAt")
    ensures r.Some? && !Truthy(Get(draft, "createdAt")) ==> r.value.timestamp == Num(now)
  {
    EscapeWithoutLt(UntitledText);
    var title := EscapedOr(Get(draft, "title"), UntitledText);
    var content := EscapedOr(Get(draft, "content"), "");
    if title.None? || content.None? then None
    else
      var id := DomString(Coalesce(Get(draft, "id"), Str("")));
      var time := Or(Get(draft, "createdAt"), Num(now));
      Some(DraftItem(id, title.value, time, content.value))
  }

  /** A numeric id shows as its numeral, which reads back as the id. */
  lemma NumericIdShown(draft: Record, now: int, n: nat)
    requires Get(draft, "id") == Num(n)
    requires RenderDraftItem(draft, now).Some?
    ensures DigitsValue(RenderDraftItem(draft, now).value.id) == n
  {
    DigitsRoundTrip(n);
  }

  // ---------------------------------------------------------------------------
  // The container

  /** A child node of the container: a rendered item, or anything else the
      page put there. */
  datatype Node = Item(item: DraftItem) | OtherNode(tag: string)

  class Container {
    var children: seq<Node>

    constructor (children: seq<Node>)
      ensures this.children == children
    {
      this.children := children;
    }
  }

  /** clearDrafts: removes the first child while there is one. A missing
      container is left alone. */
  method ClearDrafts(container: Container?)
    modifies container
    ensures container != null ==> container.children == []
  {
    if container == null {
      return;
    }
    while container.children != []
      decreases |container.children|
    {
      container.children := container.children[1..];
    }
  }

  /** `children` are the rendered items of the first `n` drafts, in order. */
  predicate ItemsShown(children: seq<Node>, drafts: seq<Record>, now: int, n: nat)
  {
    n <= |drafts| && |children| == n
    && forall j :: 0 <= j < n ==>
         RenderDraftItem(drafts[j], now).Some? && children[j] == Item(RenderDraftItem(drafts[j], now).value)
  }

  lemma ItemsShownAppend(children: seq<Node>, drafts: seq<Record>, now: int, n: nat, item: DraftItem)
    requires ItemsShown(children, drafts, now, n) && n < |drafts|
    requires RenderDraftItem(drafts[n], now) == Some(item)
    ensures ItemsShown(children + [Item(item)], drafts, now, n + 1)
  {
  }

  /** showDrafts: clears the container, then appends one rendered item per
      draft, in order. When a draft's item throws, the loop stops there with
      the items before it already appended. `shown` counts the items. */
  method ShowDrafts(container: Container?, drafts: seq<Record>, now: int) returns (shown: nat)
    modifies container
    ensures container == null ==> shown == 0
    ensures container != null ==> ItemsShown(container.children, drafts, now, shown)
    ensures container != null && shown < |drafts| ==> RenderDraftItem(drafts[shown], now).None?
    ensures container != null && AllRender(drafts, now) ==> container.children == Items(drafts, now) && shown == |drafts|
  {
    if container == null {
      return 0;
    }
    ClearDrafts(container);
    shown := 0;
    while shown < |drafts|
      invariant ItemsShown(container.children, drafts, now, shown)
    {
      var item := RenderDraftItem(drafts[shown], now);
      if item.None? {
        return;
      }
      ItemsShownAppend(container.children, drafts, now, shown, item.value);
      container.children := container.children + [Item(item.value)];
      shown := shown + 1;
    }
    if AllRender(drafts, now) {
      AllItemsShown(container.children, drafts, now);
    }
  }

  /** Drafts whose items all render. */
  predicate AllRender(drafts: seq<Record>, now: int)
  {
    forall j :: 0 <= j < |drafts| ==> RenderDraftItem(drafts[j], now).Some?
  }

  /** The items showDrafts appends for drafts that all render. */
  function Items(drafts: seq<Record>, now: int): (r: seq<Node>)
    requires AllRender(drafts, now)
    ensures |r| == |drafts|
    ensures forall j :: 0 <= j < |r| ==> r[j] == Item(RenderDraftItem(drafts[j], now).value)
  {
    seq(|drafts|, j requires 0 <= j < |drafts| => Item(RenderDraftItem(drafts[j], now).value))
  }

  /** Children showing every draft are exactly the items of the drafts. */
  lemma AllItemsShown(children: seq<Node>, drafts: seq<Record>, now: int)
    requires ItemsShown(children, drafts, now, |drafts|) && AllRender(drafts, now)
    ensures children == Items(drafts, now)
  {
    assert forall j :: 0 <= j < |children| ==> children[j] == Items(drafts, now)[j];
  }

  /** Drafts without a title, content or id show as `Untitled`, empty
      content and an empty id, stamped with the current time. */
  lemma EmptyDraftDefaults(now: int)
    ensures RenderDraftItem(map[], now) == Some(DraftItem("", UntitledText, Num(now), ""))
  {
    EscapeWithoutLt(UntitledText);
  }

  /** Drafts whose text fields are plain strings always render. */
  lemma StringFieldsRender(drafts: seq<Record>, now: int)
    requires forall j :: 0 <= j < |drafts| ==>
      (Get(drafts[j], "title").Str? || !Truthy(Get(drafts[j], "title")))
      && (Get(drafts[j], "content").Str? || !Truthy(Get(drafts[j], "content")))
    ensures AllRender(drafts, now)
    ensures forall j :: 0 <= j < |drafts| ==>
      '<' !in Items(drafts, now)[j].item.titleHtml && '<' !in Items(drafts, now)[j].item.contentHtml
  {
  }
}
