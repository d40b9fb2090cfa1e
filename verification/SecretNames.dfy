/** The denylist on field names: no audit row may name a field that is named like a secret. */
module SecretNames {

  /** The alternatives of the pattern, matched anywhere in a name and without regard to case. */
  const SECRET_NAMES: seq<string> := [
    "password", "passwd", "token", "secret", "apikey", "api_key", "api-key", "authorization", "cookie", "csrf", "credential"]

  function LowerCase(c: char): char {
    if 'A' <= c <= 'Z' then (c as int + 32) as char else c
  }

  predicate OccursAt(name: string, word: string, i: nat)
    requires i + |word| <= |name|
  {
    forall k :: 0 <= k < |word| ==> LowerCase(name[i + k]) == word[k]
  }

  predicate Mentions(name: string, word: string) {
    exists i :: 0 <= i <= |name| - |word| && OccursAt(name, word, i)
  }

  predicate SecretName(name: string) {
    exists k :: 0 <= k < |SECRET_NAMES| && Mentions(name, SECRET_NAMES[k])
  }

  predicate SecretWord(word: string) {
    word in {"password", "passwd", "token", "secret", "apikey", "api_key", "api-key", "authorization", "cookie", "csrf", "credential"}
  }

  /** The same letters, some of them perhaps in upper case. */
  predicate Writes(written: string, word: string) {
    && |written| == |word|
    && forall k :: 0 <= k < |word| ==>
         written[k] == word[k] || ('a' <= word[k] <= 'z' && written[k] as int == word[k] as int - 32)
  }

  lemma SecretWordListed(word: string) returns (k: nat)
    requires SecretWord(word)
    ensures k < |SECRET_NAMES| && SECRET_NAMES[k] == word && forall i :: 0 <= i < |word| ==> LowerCase(word[i]) == word[i]
  {
    k := if word == "password" then 0 else if word == "passwd" then 1 else if word == "token" then 2
         else if word == "secret" then 3 else if word == "apikey" then 4 else if word == "api_key" then 5
         else if word == "api-key" then 6 else if word == "authorization" then 7 else if word == "cookie" then 8
         else if word == "csrf" then 9 else 10;
  }

  /** Each of the words, in any case and with anything around it, makes a name a secret one. */
  lemma SecretAnywhere(before: string, written: string, after: string, word: string)
    requires SecretWord(word) && Writes(written, word)
    ensures SecretName(before + written + after)
  {
    var name := before + written + after;
    var n := SecretWordListed(word);
    hide SECRET_NAMES, SecretWord;
    forall k | 0 <= k < |word|
      ensures LowerCase(name[|before| + k]) == word[k]
    {
      assert name[|before| + k] == written[k] && LowerCase(word[k]) == word[k];
    }
    assert OccursAt(name, word, |before|);
    assert Mentions(name, SECRET_NAMES[n]);
  }

  // ---- the entry fields are safe ------------------------------------------

  predicate Lacks(name: string, c: char) {
    forall i :: 0 <= i < |name| ==> LowerCase(name[i]) != c
  }

  lemma LacksLetter(name: string, word: string, k: nat)
    requires k < |word| && Lacks(name, word[k])
    ensures !Mentions(name, word)
  {}

  /** A name without k and z that avoids the other words as well. */
  lemma NotSecret(name: string)
    requires Lacks(name, 'k') && Lacks(name, 'z')
    requires Lacks(name, 'w') || Lacks(name, 's')
    requires !Mentions(name, "secret")
    requires Lacks(name, 's') || Lacks(name, 'f') || Lacks(name, 'c')
    requires Lacks(name, 'l') || Lacks(name, 'c') || Lacks(name, 't')
    ensures !SecretName(name)
  {
    if Lacks(name, 'w') {
      LacksLetter(name, "password", 4);
      LacksLetter(name, "passwd", 4);
    } else {
      LacksLetter(name, "password", 2);
      LacksLetter(name, "passwd", 2);
    }
    LacksLetter(name, "token", 2);
    LacksLetter(name, "apikey", 3);
    LacksLetter(name, "api_key", 4);
    LacksLetter(name, "api-key", 4);
    LacksLetter(name, "authorization", 7);
    LacksLetter(name, "cookie", 3);
    if Lacks(name, 's') {
      LacksLetter(name, "csrf", 1);
    } else if Lacks(name, 'f') {
      LacksLetter(name, "csrf", 3);
    } else {
      LacksLetter(name, "csrf", 0);
    }
    if Lacks(name, 'l') {
      LacksLetter(name, "credential", 9);
    } else if Lacks(name, 'c') {
      LacksLetter(name, "credential", 0);
    } else {
      LacksLetter(name, "credential", 6);
    }
    hide Mentions, Lacks;
    assert forall k :: 0 <= k < |SECRET_NAMES| ==> !Mentions(name, SECRET_NAMES[k]);
  }

  /** None of the letters k, z, s and one more. */
  predicate Plain(name: string, other: char) {
    forall i :: 0 <= i < |name| ==> LowerCase(name[i]) != 'k' && LowerCase(name[i]) != 'z' && LowerCase(name[i]) != 's'
                                    && LowerCase(name[i]) != other
  }

  /** Most names have no s either, and lack l or c. */
  lemma PlainName(name: string, other: char)
    requires Plain(name, other) && other in "lc"
    ensures !SecretName(name)
  {
    hide SecretName;
    LacksLetter(name, "secret", 0);
    NotSecret(name);
  }

  // Eleven of the fourteen entry fields.

  lemma EntryNumber()
    ensures !SecretName("entry_number")
  {
    hide SecretName;
    PlainName("entry_number", 'l');
  }

  lemma ImporterOfRecordId()
    ensures !SecretName("importer_of_record_id")
  {
    hide SecretName;
    PlainName("importer_of_record_id", 'l');
  }

  lemma PortOfEntryCode()
    ensures !SecretName("port_of_entry_code")
  {
    hide SecretName;
    PlainName("port_of_entry_code", 'l');
  }

  lemma CarrierCode()
    ensures !SecretName("carrier_code")
  {
    hide SecretName;
    PlainName("carrier_code", 'l');
  }

  lemma ConveyanceName()
    ensures !SecretName("conveyance_name")
  {
    hide SecretName;
    PlainName("conveyance_name", 'l');
  }

  lemma BillOfLadingNumber()
    ensures !SecretName("bill_of_lading_number")
  {
    hide SecretName;
    PlainName("bill_of_lading_number", 'c');
  }

  lemma AirWaybillNumber()
    ensures !SecretName("air_waybill_number")
  {
    hide SecretName;
    PlainName("air_waybill_number", 'c');
  }

  lemma CountryOfOriginCode()
    ensures !SecretName("country_of_origin_code")
  {
    hide SecretName;
    PlainName("country_of_origin_code", 'l');
  }

  lemma Quantity()
    ensures !SecretName("quantity")
  {
    hide SecretName;
    PlainName("quantity", 'l');
  }

  lemma QuantityUom()
    ensures !SecretName("quantity_uom")
  {
    hide SecretName;
    PlainName("quantity_uom", 'l');
  }

  lemma ArrivalDate()
    ensures !SecretName("arrival_date")
  {
    hide SecretName;
    PlainName("arrival_date", 'c');
  }

  lemma ModeOfTransport()
    ensures !SecretName("mode_of_transport")
  {
    var name := "mode_of_transport";
    hide SecretName, Mentions;
    assert Lacks(name, 'k');
    assert Lacks(name, 'z');
    assert Lacks(name, 'w');
    assert Lacks(name, 'c');
    assert Lacks(name, 'l');
    LacksLetter(name, "secret", 2);
    NotSecret(name);
  }

  lemma DeclaredValueUsd()
    ensures !SecretName("declared_value_usd")
  {
    var name := "declared_value_usd";
    hide SecretName, Mentions;
    assert Lacks(name, 'k');
    assert Lacks(name, 'z');
    assert Lacks(name, 'w');
    assert Lacks(name, 'f');
    assert Lacks(name, 't');
    LacksLetter(name, "secret", 5);
    NotSecret(name);
  }

  lemma StartsThere(name: string, word: string, i: nat)
    requires |word| >= 2 && i + |word| <= |name| && OccursAt(name, word, i)
    ensures LowerCase(name[i]) == word[0] && LowerCase(name[i + 1]) == word[1]
  {
    assert LowerCase(name[i + 0]) == word[0];
    assert LowerCase(name[i + 1]) == word[1];
  }

  /** It has an s and an e, but never an s before an e. */
  lemma GoodsWithoutSecret()
    ensures !Mentions("goods_description", "secret")
  {
    var name := "goods_description";
    forall i | 0 <= i <= |name| - 6
      ensures !OccursAt(name, "secret", i)
    {
      if OccursAt(name, "secret", i) {
        StartsThere(name, "secret", i);
      }
    }
  }

  lemma GoodsDescription()
    ensures !SecretName("goods_description")
  {
    var name := "goods_description";
    hide SecretName, Mentions;
    GoodsWithoutSecret();
    assert Lacks(name, 'k');
    assert Lacks(name, 'z');
    assert Lacks(name, 'w');
    assert Lacks(name, 'f');
    assert Lacks(name, 'l');
    NotSecret(name);
  }
}
