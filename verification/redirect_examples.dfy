/** The scenarios of test/index.spec.ts, stated over concrete parsed
    records, with the percent-encoder taken as the identity (none of the
    names or values below needs escaping). Each lemma's requires say what
    the URL parser returns for the inputs involved. */
module RedirectExamples {
  import opened Wrappers
  import opened SearchParams
  import opened CallbackMove
  import opened Resolver
  import opened RedirectProperties

  const Plain: Encoder := s => s

  /** A relative callback path is the destination (test/index.spec.ts:45-54). */
  lemma RedirectsToCallbackPath(parse: Parser)
    requires parse("https://shop.example/?next=/account", None) ==
      Some(Url("https", "shop.example", None, "/", [("next", "/account")], None))
    requires parse("/account", Some("https://shop.example/?next=/account")) ==
      Some(Url("https", "shop.example", None, "/account", [], None))
    ensures Redirect("https://shop.example/?next=/account", "next", parse, Plain) == [Assign("/account")]
  {
    assert Delete([("next", "/account")], "next") == [];
  }

  /** A callback whose dot segment leaves a pathname beginning with `//`
      is assigned as a protocol-relative reference: `?next=/.//evil.com`
      assigns `//evil.com`. */
  lemma ProtocolRelativeCallback(parse: Parser)
    requires parse("https://shop.example/?next=/.//evil.com", None) ==
      Some(Url("https", "shop.example", None, "/", [("next", "/.//evil.com")], None))
    requires parse("/.//evil.com", Some("https://shop.example/?next=/.//evil.com")) ==
      Some(Url("https", "shop.example", None, "//evil.com", [], None))
    ensures Redirect("https://shop.example/?next=/.//evil.com", "next", parse, Plain) == [Assign("//evil.com")]
  {
    assert Delete([("next", "/.//evil.com")], "next") == [];
  }

  /** A parameter name the location does not carry gives `/`
      (test/index.spec.ts:56-65). */
  lemma RedirectsToRootWithoutCallback(parse: Parser)
    requires parse("https://shop.example/?next=/account", None) ==
      Some(Url("https", "shop.example", None, "/", [("next", "/account")], None))
    ensures Redirect("https://shop.example/?next=/account", "", parse, Plain) == [Assign("/")]
  {
  }

  /** Two pairs serialise as `name=value` joined by `&`. */
  lemma SerializeTwoPairs(a: Pair, b: Pair)
    ensures Serialize([a, b], Plain) == a.0 + "=" + a.1 + "&" + b.0 + "=" + b.1
  {
    assert [a, b][1..] == [b];
  }

  /** The outer and callback lists of test/index.spec.ts:67-88 merge into
      the outer pair `k2=v2` followed by the moved pair `k1=v1`. */
  lemma CallbackQueryMerge()
    ensures Delete([("next", "/cart?k1=v1"), ("k2", "v2")], "next") + Delete(LiveMove([("k1", "v1")]), "next") ==
      [("k2", "v2"), ("k1", "v1")]
  {
    var outer := [("next", "/cart?k1=v1"), ("k2", "v2")];
    var moved := [("k1", "v1")];
    assert LiveMove(moved) == moved by {
      assert Delete(moved, "k1") == [];
    }
    assert Delete(outer, "next") == [("k2", "v2")] by {
      assert outer[1..] == [("k2", "v2")];
      assert Delete([("k2", "v2")], "next") == [("k2", "v2")] by {
        assert [("k2", "v2")][1..] == [];
      }
    }
    assert Delete(moved, "next") == moved by {
      assert moved[1..] == [];
    }
  }

  /** The destination string of test/index.spec.ts:67-88. */
  lemma CallbackQueryHref()
    ensures "/cart" + Search(Delete([("next", "/cart?k1=v1"), ("k2", "v2")], "next") + Delete(LiveMove([("k1", "v1")]), "next"), Plain) ==
      "/cart?k2=v2&k1=v1"
  {
    var q := [("k2", "v2"), ("k1", "v1")];
    CallbackQueryMerge();
    assert Search(q, Plain) == "?k2=v2&k1=v1" by {
      SerializeTwoPairs(q[0], q[1]);
    }
    assert "/cart" + "?k2=v2&k1=v1" == "/cart?k2=v2&k1=v1";
  }

  /** The callback's own query pair is carried over after the outer pairs,
      and the destination's query looks up both values
      (test/index.spec.ts:67-88). */
  lemma PreservesCallbackQuery(parse: Parser)
    requires parse("https://shop.example/?next=/cart?k1=v1&k2=v2", None) ==
      Some(Url("https", "shop.example", None, "/", [("next", "/cart?k1=v1"), ("k2", "v2")], None))
    requires parse("/cart?k1=v1", Some("https://shop.example/?next=/cart?k1=v1&k2=v2")) ==
      Some(Url("https", "shop.example", None, "/cart", [("k1", "v1")], None))
    ensures Resolve("https://shop.example/?next=/cart?k1=v1&k2=v2", "next", parse).Success?
    ensures Get(Resolve("https://shop.example/?next=/cart?k1=v1&k2=v2", "next", parse).value.query, "k1") == Some("v1")
    ensures Get(Resolve("https://shop.example/?next=/cart?k1=v1&k2=v2", "next", parse).value.query, "k2") == Some("v2")
    ensures Redirect("https://shop.example/?next=/cart?k1=v1&k2=v2", "next", parse, Plain) ==
      [Assign("/cart?k2=v2&k1=v1")]
  {
    var href := "https://shop.example/?next=/cart?k1=v1&k2=v2";
    var outer := Url("https", "shop.example", None, "/", [("next", "/cart?k1=v1"), ("k2", "v2")], None);
    var cb := Url("https", "shop.example", None, "/cart", [("k1", "v1")], None);
    assert CallbackValue(outer.query, "next") == Some("/cart?k1=v1");
    CallbackDestination(href, "next", parse, Plain, outer, cb);
    CallbackQueryHref();
    CallbackQueryMerge();
    assert Resolve(href, "next", parse).value.query == [("k2", "v2"), ("k1", "v1")];
  }

  /** An absolute URL to another site keeps only its pathname `/`
      (test/index.spec.ts:90-106). */
  lemma EscapesOtherDomain(parse: Parser)
    requires parse("https://shop.example/?next=https://www.google.com", None) ==
      Some(Url("https", "shop.example", None, "/", [("next", "https://www.google.com")], None))
    requires parse("https://www.google.com", Some("https://shop.example/?next=https://www.google.com")) ==
      Some(Url("https", "www.google.com", None, "/", [], None))
    ensures Redirect("https://shop.example/?next=https://www.google.com", "next", parse, Plain) == [Assign("/")]
  {
    assert Delete([("next", "https://www.google.com")], "next") == [];
  }

  /** The same with a percent-encoded value, which the query parser decodes
      before the lookup (test/index.spec.ts:108-124). */
  lemma EscapesEncodedOtherDomain(parse: Parser)
    requires parse("https://shop.example/?next=http%3A%2F%2Fgoogle.com", None) ==
      Some(Url("https", "shop.example", None, "/", [("next", "http://google.com")], None))
    requires parse("http://google.com", Some("https://shop.example/?next=http%3A%2F%2Fgoogle.com")) ==
      Some(Url("http", "google.com", None, "/", [], None))
    ensures Redirect("https://shop.example/?next=http%3A%2F%2Fgoogle.com", "next", parse, Plain) == [Assign("/")]
  {
    assert Delete([("next", "http://google.com")], "next") == [];
  }

  /** A `javascript:` payload keeps only its opaque path, so the scheme is
      dropped (test/index.spec.ts:126-143). */
  lemma EscapesJavascript(parse: Parser)
    requires parse("https://shop.example/?next=javascript:alert('hey')", None) ==
      Some(Url("https", "shop.example", None, "/", [("next", "javascript:alert('hey')")], None))
    requires parse("javascript:alert('hey')", Some("https://shop.example/?next=javascript:alert('hey')")) ==
      Some(Url("javascript", "", None, "alert('hey')", [], None))
    ensures Redirect("https://shop.example/?next=javascript:alert('hey')", "next", parse, Plain) ==
      [Assign("alert('hey')")]
  {
    assert Delete([("next", "javascript:alert('hey')")], "next") == [];
  }

  /** A location the parser rejects makes `redirect` throw before any
      navigation. */
  lemma NoNavigationOnInvalidLocation(href: string, name: string, parse: Parser, enc: Encoder)
    requires parse(href, None).None?
    ensures GetRedirectionQueryParam(href, name, parse, enc) == Failure(InvalidLocation(href))
    ensures Redirect(href, name, parse, enc) == []
  {
  }

  /** The lists of the skip scenario: the source keeps `a=1` only, the
      corrected move keeps both pairs. */
  lemma SkipScenarioMerge()
    ensures Delete([("next", "/x?a=1&b=2")], "next") + Delete(LiveMove([("a", "1"), ("b", "2")]), "next") ==
      [("a", "1")]
    ensures Delete([("next", "/x?a=1&b=2")], "next") + Delete(Movables([("a", "1"), ("b", "2")]), "next") ==
      [("a", "1"), ("b", "2")]
  {
    var callback := [("a", "1"), ("b", "2")];
    LiveMoveExample();
    assert Delete([("next", "/x?a=1&b=2")], "next") == [];
    assert Delete([("a", "1")], "next") == [("a", "1")] by {
      assert [("a", "1")][1..] == [];
    }
    assert Delete(callback, "next") == callback by {
      assert callback[1..] == [("b", "2")];
      assert Delete([("b", "2")], "next") == [("b", "2")] by {
        assert [("b", "2")][1..] == [];
      }
    }
  }

  /** The destination strings of the skip scenario. */
  lemma SkipScenarioHref()
    ensures "/x" + Search(Delete([("next", "/x?a=1&b=2")], "next") + Delete(LiveMove([("a", "1"), ("b", "2")]), "next"), Plain) ==
      "/x?a=1"
    ensures "/x" + Search(Delete([("next", "/x?a=1&b=2")], "next") + Delete(Movables([("a", "1"), ("b", "2")]), "next"), Plain) ==
      "/x?a=1&b=2"
  {
    var callback := [("a", "1"), ("b", "2")];
    SkipScenarioMerge();
    assert Search([("a", "1")], Plain) == "?a=1";
    assert Search(callback, Plain) == "?a=1&b=2" by {
      SerializeTwoPairs(callback[0], callback[1]);
    }
    assert "/x" + "?a=1" == "/x?a=1";
    assert "/x" + "?a=1&b=2" == "/x?a=1&b=2";
  }

  /** The live-list move drops `b=2` from a callback `/x?a=1&b=2` that was
      percent-encoded into the location; the corrected move keeps it. */
  lemma LiveMoveDropsSecondCallbackPair(parse: Parser)
    requires parse("https://shop.example/?next=%2Fx%3Fa%3D1%26b%3D2", None) ==
      Some(Url("https", "shop.example", None, "/", [("next", "/x?a=1&b=2")], None))
    requires parse("/x?a=1&b=2", Some("https://shop.example/?next=%2Fx%3Fa%3D1%26b%3D2")) ==
      Some(Url("https", "shop.example", None, "/x", [("a", "1"), ("b", "2")], None))
    ensures Redirect("https://shop.example/?next=%2Fx%3Fa%3D1%26b%3D2", "next", parse, Plain) ==
      [Assign("/x?a=1")]
    ensures RedirectCorrected("https://shop.example/?next=%2Fx%3Fa%3D1%26b%3D2", "next", parse, Plain) ==
      [Assign("/x?a=1&b=2")]
  {
    var href := "https://shop.example/?next=%2Fx%3Fa%3D1%26b%3D2";
    var outer := Url("https", "shop.example", None, "/", [("next", "/x?a=1&b=2")], None);
    var callback := [("a", "1"), ("b", "2")];
    var cb := Url("https", "shop.example", None, "/x", callback, None);
    assert CallbackValue(outer.query, "next") == Some("/x?a=1&b=2");
    CallbackDestination(href, "next", parse, Plain, outer, cb);
    CorrectedCallbackDestination(href, "next", parse, Plain, outer, cb);
    SkipScenarioHref();
  }
}
