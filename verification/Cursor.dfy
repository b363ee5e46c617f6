/** A store's key listing as clients page through it: the backend cuts the matching keys into pages
    as it likes, and a token names the page to read next.  Token 0 stands for the empty token, both
    at the start and at the end. */
module Cursor {
  function Flatten(pages: seq<seq<string>>): seq<string> {
    if pages == [] then [] else pages[0] + Flatten(pages[1..])
  }

  lemma {:induction false} FlattenSnoc(pages: seq<seq<string>>, page: seq<string>)
    ensures Flatten(pages + [page]) == Flatten(pages) + page
  {
    if pages == [] {
      assert [page] == [page] + [];
    } else {
      FlattenSnoc(pages[1..], page);
      assert (pages + [page])[1..] == pages[1..] + [page];
    }
  }

  lemma {:induction false} FlattenConcat(a: seq<seq<string>>, b: seq<seq<string>>)
    ensures Flatten(a + b) == Flatten(a) + Flatten(b)
  {
    if a == [] {
      assert a + b == b;
    } else {
      FlattenConcat(a[1..], b);
      assert (a + b)[1..] == a[1..] + b;
    }
  }

  function NextToken(pages: seq<seq<string>>, token: nat): nat { if token + 1 < |pages| then token + 1 else 0 }

  /** The first page not scanned by a call that returned next. */
  function EndOf(pages: seq<seq<string>>, next: nat): nat { if next == 0 then |pages| else next }
}
