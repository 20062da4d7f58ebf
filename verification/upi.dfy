/**
 UPI deep links of the form `upi://pay?pa=<payee>&pn=<name>&am=<amount>&...` (the URI scheme
 of NPCI's UPI Linking Specification), as the payment service and the request fan-out build
 them by string concatenation.

 Free-text fields (`pn` for merchants, `tn` for collect requests) go through
 `encodeURIComponent`; the payee `pa` and the amount `am` are inserted as they are. The amount's
 rendering (JavaScript's Number-to-string) is a parameter of the callers.

 The partner of the builders is `Query`, a reader of the query string that splits on `&` and
 then on the first `=`; the lemmas show which parameters a reader sees in each built link.
 */
module Upi {
  import opened Common
  import Percent

  predicate IsDigit(c: char) {
    '0' <= c <= '9'
  }

  /** `/^\d{10}$/`: exactly ten ASCII digits. */
  predicate IsPhoneNumber(id: string) {
    |id| == 10 && forall i :: 0 <= i < |id| ==> IsDigit(id[i])
  }

  const PaytmSuffix: string := "@paytm"

  /** The payee address: a bare phone number is turned into its Paytm handle, anything else is kept. */
  function ResolvePayee(merchantId: string): (payee: string)
    ensures |merchantId| <= |payee| && payee[..|merchantId|] == merchantId
    ensures payee == merchantId <==> !IsPhoneNumber(merchantId)
    ensures payee != merchantId ==> payee[|merchantId|..] == PaytmSuffix
    ensures !IsPhoneNumber(payee)
  {
    if IsPhoneNumber(merchantId) then merchantId + PaytmSuffix else merchantId
  }

  /** Resolving an already resolved payee changes nothing. */
  lemma ResolvePayeeIdempotent(merchantId: string)
    ensures ResolvePayee(ResolvePayee(merchantId)) == ResolvePayee(merchantId)
  {
  }

  const Scheme: string := "upi://pay?"

  /** The merchant payment link: only the payee name is percent-encoded. */
  function MerchantUrl(payee: string, name: string, am: string): string {
    Scheme + "pa=" + payee + "&pn=" + Percent.Encode(name) + "&am=" + am + "&cu=INR"
  }

  /** `processUPIPayment`'s link for a merchant id, an amount and a merchant name. */
  function ProcessUpiPayment(merchantId: string, amount: real, merchantName: string, render: real -> string): (url: string)
    // A ten-digit phone number is paid at its `@paytm` address, any other id as typed; the
    // link reads back with that payee, the encoded name, the amount and `cu=INR`.
    ensures '&' !in ResolvePayee(merchantId) && '&' !in render(amount) ==>
      Query(url) == Some([("pa", ResolvePayee(merchantId)), ("pn", Percent.Encode(merchantName)),
                          ("am", render(amount)), ("cu", "INR")])
  {
    var payee := ResolvePayee(merchantId);
    assert '&' !in payee && '&' !in render(amount) ==>
             Query(MerchantUrl(payee, merchantName, render(amount))) ==
             Some([("pa", payee), ("pn", Percent.Encode(merchantName)), ("am", render(amount)), ("cu", "INR")]) by {
      if '&' !in payee && '&' !in render(amount) {
        MerchantUrlQuery(payee, merchantName, render(amount));
      }
    }
    MerchantUrl(payee, merchantName, render(amount))
  }

  /** A collect request link; the payee name is always `PoolPay` and only the note is percent-encoded. */
  function CollectUrl(payee: string, am: string, note: string): (url: string)
    // With a payee and an amount free of `&`, the link reads back as exactly its five parameters.
    ensures '&' !in payee && '&' !in am ==>
      Query(url) == Some([("pa", payee), ("pn", "PoolPay"), ("am", am), ("tn", Percent.Encode(note)), ("mode", "02")])
  {
    var url := Scheme + "pa=" + payee + "&pn=PoolPay&am=" + am + "&tn=" + Percent.Encode(note) + "&mode=02";
    assert '&' !in payee && '&' !in am ==>
             Query(url) == Some([("pa", payee), ("pn", "PoolPay"), ("am", am), ("tn", Percent.Encode(note)), ("mode", "02")]) by {
      if '&' !in payee && '&' !in am {
        EncodedHasNoDelimiters(note);
        CollectQuery(payee, am, Percent.Encode(note));
      }
    }
    url
  }

  /** The escrow virtual-account address of a group. */
  function EscrowPayee(groupId: string): (payee: string)
    // The group id reads back from between the fixed prefix and suffix ...
    ensures |payee| == |groupId| + 17 && payee[8..|payee| - 9] == groupId
    ensures payee[..8] == "poolpay." && payee[|payee| - 9..] == "@cashfree"
    // ... and an `&`-free id gives an `&`-free payee, which a link carries intact.
    ensures '&' !in groupId ==> '&' !in payee
  {
    "poolpay." + groupId + "@cashfree"
  }

  /** Splits `s` at every occurrence of `sep`; there is always at least one piece. */
  function Split(s: string, sep: char): (parts: seq<string>)
    ensures |parts| >= 1
  {
    if |s| == 0 then [""]
    else
      var rest := Split(s[1..], sep);
      if s[0] == sep then [""] + rest else [[s[0]] + rest[0]] + rest[1..]
  }

  /** Index of the first `c` in `s`, or `|s|` when there is none. */
  function IndexOf(s: string, c: char): (i: nat)
    ensures i <= |s|
    ensures i < |s| ==> s[i] == c
    ensures forall j :: 0 <= j < i ==> s[j] != c
  {
    if |s| == 0 || s[0] == c then 0 else 1 + IndexOf(s[1..], c)
  }

  /** A `key=value` parameter, split at its first `=`; a parameter without `=` has an empty value. */
  function Field(p: string): (string, string) {
    var i := IndexOf(p, '=');
    if i == |p| then (p, "") else (p[..i], p[i + 1..])
  }

  /** The parameters a reader of the link sees, in order; `None` for a link of another scheme. */
  function Query(url: string): Option<seq<(string, string)>> {
    if |Scheme| <= |url| && url[..|Scheme|] == Scheme then
      var parts := Split(url[|Scheme|..], '&');
      Some(seq(|parts|, i requires 0 <= i < |parts| => Field(parts[i])))
    else None
  }

  lemma {:induction false} SplitWithout(a: string, sep: char)
    requires sep !in a
    ensures Split(a, sep) == [a]
  {
    if |a| > 0 {
      SplitWithout(a[1..], sep);
      assert [a[0]] + a[1..] == a;
    }
  }

  /** Splitting at the first separator: the piece before it, then the pieces of the rest. */
  lemma {:induction false} SplitFirst(a: string, sep: char, b: string)
    requires sep !in a
    ensures Split(a + [sep] + b, sep) == [a] + Split(b, sep)
  {
    if |a| == 0 {
      assert a + [sep] + b == [sep] + b;
      assert ([sep] + b)[1..] == b;
    } else {
      assert (a + [sep] + b)[1..] == a[1..] + [sep] + b;
      SplitFirst(a[1..], sep, b);
      assert [a[0]] + a[1..] == a;
    }
  }

  lemma FieldOf(k: string, v: string)
    requires '=' !in k
    ensures Field(k + "=" + v) == (k, v)
  {
    var p := k + "=" + v;
    assert p[|k|] == '=';
    assert forall j :: 0 <= j < |k| ==> p[j] == k[j];
    assert IndexOf(p, '=') == |k|;
    assert p[..|k|] == k;
    assert p[|k| + 1..] == v;
  }

  lemma NoAmpConcat(a: string, b: string)
    requires '&' !in a && '&' !in b
    ensures '&' !in a + b
  {
  }

  /** Percent-encoded text holds neither `&` nor `=`, so it stays inside one parameter's value. */
  lemma EncodedHasNoDelimiters(s: string)
    ensures '&' !in Percent.Encode(s) && '=' !in Percent.Encode(s)
  {
    var e := Percent.Encode(s);
    forall i | 0 <= i < |e|
      ensures e[i] != '&' && e[i] != '='
    {
      assert Percent.Unescaped(e[i]) || e[i] == '%' || Percent.IsHexDigit(e[i]);
    }
  }

  /** The parameters of a query `pieces[0] & pieces[1] & ...` whose pieces hold no `&`. */
  lemma {:induction false} QueryOfPieces(pieces: seq<string>, body: string)
    requires |pieces| >= 1
    requires forall i :: 0 <= i < |pieces| ==> '&' !in pieces[i]
    requires body == JoinAmp(pieces)
    ensures Split(body, '&') == pieces
  {
    if |pieces| == 1 {
      SplitWithout(pieces[0], '&');
    } else {
      SplitFirst(pieces[0], '&', JoinAmp(pieces[1..]));
      QueryOfPieces(pieces[1..], JoinAmp(pieces[1..]));
    }
  }

  function JoinAmp(pieces: seq<string>): string
    requires |pieces| >= 1
  {
    if |pieces| == 1 then pieces[0] else pieces[0] + "&" + JoinAmp(pieces[1..])
  }

  /** Reading a link whose body is `pieces` joined by `&` gives each piece's key and value. */
  lemma ReadPieces(url: string, pieces: seq<string>)
    requires |pieces| >= 1
    requires forall i :: 0 <= i < |pieces| ==> '&' !in pieces[i]
    requires url == Scheme + JoinAmp(pieces)
    ensures Query(url).Some? && |Query(url).value| == |pieces|
    ensures forall i :: 0 <= i < |pieces| ==> Query(url).value[i] == Field(pieces[i])
  {
    assert url[..|Scheme|] == Scheme;
    assert url[|Scheme|..] == JoinAmp(pieces);
    QueryOfPieces(pieces, JoinAmp(pieces));
  }

  lemma JoinFour(a: string, b: string, c: string, d: string)
    ensures JoinAmp([a, b, c, d]) == a + "&" + (b + "&" + (c + "&" + d))
  {
    var p := [a, b, c, d];
    assert p[1..] == [b, c, d] && p[1..][1..] == [c, d] && p[1..][1..][1..] == [d];
    assert JoinAmp([c, d]) == c + "&" + d;
    assert JoinAmp([b, c, d]) == b + "&" + JoinAmp([c, d]);
  }

  lemma JoinFive(a: string, b: string, c: string, d: string, e: string)
    ensures JoinAmp([a, b, c, d, e]) == a + "&" + (b + "&" + (c + "&" + (d + "&" + e)))
  {
    var p := [a, b, c, d, e];
    assert p[1..] == [b, c, d, e];
    JoinFour(b, c, d, e);
  }

  /** A link made of four `&`-free pieces reads back as the four pieces' fields. */
  lemma QueryOf4(url: string, p0: string, p1: string, p2: string, p3: string)
    requires '&' !in p0 && '&' !in p1 && '&' !in p2 && '&' !in p3
    requires url == Scheme + (p0 + "&" + (p1 + "&" + (p2 + "&" + p3)))
    ensures Query(url) == Some([Field(p0), Field(p1), Field(p2), Field(p3)])
  {
    var pieces := [p0, p1, p2, p3];
    JoinFour(p0, p1, p2, p3);
    ReadPieces(url, pieces);
    var q := Query(url).value;
    assert |q| == 4;
    assert q[0] == Field(p0) && q[1] == Field(p1) && q[2] == Field(p2) && q[3] == Field(p3);
    assert q == [Field(p0), Field(p1), Field(p2), Field(p3)];
  }

  /** A link made of five `&`-free pieces reads back as the five pieces' fields. */
  lemma QueryOf5(url: string, p0: string, p1: string, p2: string, p3: string, p4: string)
    requires '&' !in p0 && '&' !in p1 && '&' !in p2 && '&' !in p3 && '&' !in p4
    requires url == Scheme + (p0 + "&" + (p1 + "&" + (p2 + "&" + (p3 + "&" + p4))))
    ensures Query(url) == Some([Field(p0), Field(p1), Field(p2), Field(p3), Field(p4)])
  {
    var pieces := [p0, p1, p2, p3, p4];
    JoinFive(p0, p1, p2, p3, p4);
    ReadPieces(url, pieces);
    var q := Query(url).value;
    assert q[0] == Field(p0) && q[1] == Field(p1) && q[2] == Field(p2);
    assert q[3] == Field(p3) && q[4] == Field(p4);
    assert |q| == 5;
    assert q == [Field(p0), Field(p1), Field(p2), Field(p3), Field(p4)];
  }

  lemma MerchantShape(payee: string, pn: string, am: string)
    ensures Scheme + "pa=" + payee + "&pn=" + pn + "&am=" + am + "&cu=INR"
      == Scheme + (("pa" + "=" + payee) + "&" + (("pn" + "=" + pn) + "&" + (("am" + "=" + am) + "&" + ("cu" + "=" + "INR"))))
  {
  }

  lemma CollectShape(payee: string, am: string, tn: string)
    ensures Scheme + "pa=" + payee + "&pn=PoolPay&am=" + am + "&tn=" + tn + "&mode=02"
      == Scheme + (("pa" + "=" + payee) + "&" + (("pn" + "=" + "PoolPay") + "&" + (("am" + "=" + am) + "&" + (("tn" + "=" + tn) + "&" + ("mode" + "=" + "02")))))
  {
  }

  lemma InjectedShape(before: string, after: string, pn: string, am: string)
    ensures Scheme + "pa=" + (before + "&" + after) + "&pn=" + pn + "&am=" + am + "&cu=INR"
      == Scheme + (("pa" + "=" + before) + "&" + (after + "&" + (("pn" + "=" + pn) + "&" + (("am" + "=" + am) + "&" + ("cu" + "=" + "INR")))))
  {
  }

  /** The query of a merchant-shaped link, for any `pn` value free of `&`. */
  lemma MerchantQuery(payee: string, pn: string, am: string)
    requires '&' !in payee && '&' !in pn && '&' !in am
    ensures Query(Scheme + "pa=" + payee + "&pn=" + pn + "&am=" + am + "&cu=INR") ==
      Some([("pa", payee), ("pn", pn), ("am", am), ("cu", "INR")])
  {
    var url := Scheme + "pa=" + payee + "&pn=" + pn + "&am=" + am + "&cu=INR";
    NoAmpConcat("pa" + "=", payee);
    NoAmpConcat("pn" + "=", pn);
    NoAmpConcat("am" + "=", am);
    assert '&' !in "cu" + "=" + "INR";
    MerchantShape(payee, pn, am);
    QueryOf4(url, "pa" + "=" + payee, "pn" + "=" + pn, "am" + "=" + am, "cu" + "=" + "INR");
    FieldOf("pa", payee);
    FieldOf("pn", pn);
    FieldOf("am", am);
    FieldOf("cu", "INR");
  }

  /** A merchant link whose payee and amount hold no `&` reads back as exactly its four parameters, and the name decodes back. */
  lemma MerchantUrlQuery(payee: string, name: string, am: string)
    requires '&' !in payee && '&' !in am
    ensures Query(MerchantUrl(payee, name, am)) ==
      Some([("pa", payee), ("pn", Percent.Encode(name)), ("am", am), ("cu", "INR")])
    ensures Percent.Decode(Percent.Encode(name)) == Some(name)
  {
    EncodedHasNoDelimiters(name);
    MerchantQuery(payee, Percent.Encode(name), am);
    Percent.DecodeEncode(name);
  }

  /** The query of a collect-shaped link, for any `tn` value free of `&`. */
  lemma CollectQuery(payee: string, am: string, tn: string)
    requires '&' !in payee && '&' !in am && '&' !in tn
    ensures Query(Scheme + "pa=" + payee + "&pn=PoolPay&am=" + am + "&tn=" + tn + "&mode=02") ==
      Some([("pa", payee), ("pn", "PoolPay"), ("am", am), ("tn", tn), ("mode", "02")])
  {
    var url := Scheme + "pa=" + payee + "&pn=PoolPay&am=" + am + "&tn=" + tn + "&mode=02";
    NoAmpConcat("pa" + "=", payee);
    NoAmpConcat("am" + "=", am);
    NoAmpConcat("tn" + "=", tn);
    assert '&' !in "pn" + "=" + "PoolPay" && '&' !in "mode" + "=" + "02";
    CollectShape(payee, am, tn);
    QueryOf5(url, "pa" + "=" + payee, "pn" + "=" + "PoolPay", "am" + "=" + am, "tn" + "=" + tn, "mode" + "=" + "02");
    FieldOf("pa", payee);
    FieldOf("pn", "PoolPay");
    FieldOf("am", am);
    FieldOf("tn", tn);
    FieldOf("mode", "02");
  }

  /** A collect link whose payee and amount hold no `&` reads back as exactly its five parameters, and the note decodes back. */
  lemma CollectUrlQuery(payee: string, am: string, note: string)
    requires '&' !in payee && '&' !in am
    ensures Query(CollectUrl(payee, am, note)) ==
      Some([("pa", payee), ("pn", "PoolPay"), ("am", am), ("tn", Percent.Encode(note)), ("mode", "02")])
    ensures Percent.Decode(Percent.Encode(note)) == Some(note)
  {
    Percent.DecodeEncode(note);
  }

  /** The query of a merchant-shaped link whose payee is `before & after`. */
  lemma InjectedQuery(before: string, after: string, pn: string, am: string)
    requires '&' !in before && '&' !in after && '&' !in pn && '&' !in am
    ensures Query(Scheme + "pa=" + (before + "&" + after) + "&pn=" + pn + "&am=" + am + "&cu=INR") ==
      Some([("pa", before), Field(after), ("pn", pn), ("am", am), ("cu", "INR")])
  {
    var url := Scheme + "pa=" + (before + "&" + after) + "&pn=" + pn + "&am=" + am + "&cu=INR";
    NoAmpConcat("pa" + "=", before);
    NoAmpConcat("pn" + "=", pn);
    NoAmpConcat("am" + "=", am);
    assert '&' !in "cu" + "=" + "INR";
    InjectedShape(before, after, pn, am);
    QueryOf5(url, "pa" + "=" + before, after, "pn" + "=" + pn, "am" + "=" + am, "cu" + "=" + "INR");
    FieldOf("pa", before);
    FieldOf("pn", pn);
    FieldOf("am", am);
    FieldOf("cu", "INR");
  }

  /** The payee is not encoded: an `&` in it ends `pa` early and the rest reads as a parameter of its own. */
  lemma RawPayeeSplitsQuery(before: string, after: string, name: string, am: string)
    requires '&' !in before && '&' !in after && '&' !in am
    ensures Query(MerchantUrl(before + "&" + after, name, am)) ==
      Some([("pa", before), Field(after), ("pn", Percent.Encode(name)), ("am", am), ("cu", "INR")])
  {
    EncodedHasNoDelimiters(name);
    InjectedQuery(before, after, Percent.Encode(name), am);
  }
}
