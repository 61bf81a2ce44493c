/** `extractApiKeyFromBasicAuth` (index.ts): reads the API key out of a Basic
    credential so that the Agile route can present it as a Bearer token. */
module Credentials {
  import opened Common
  import opened Text
  import Base64

  /** The scheme token the header must start with, case and space included. */
  const BasicPrefix: string := "Basic "

  /** What the extractor does: return a key, return `null`, or throw
      (when `atob` rejects the encoded part). */
  datatype Extraction = ApiKey(key: string) | NoKey | DecodeThrows

  /** The text a Basic credential carries, once decoded; `None` when `atob`
      throws. */
  function DecodedCredentials(authHeader: string): (r: Option<string>)
    requires StartsWith(authHeader, BasicPrefix)
    ensures r.Some? ==> IsLatin1(r.value)
    ensures r.Some? ==> 4 * |r.value| <= 3 * (|authHeader| - |BasicPrefix|)
  {
    match Base64.ForgivingDecode(authHeader[|BasicPrefix|..])
    case None => None
    case Some(octets) => Some(BinaryString(octets))
  }

  /** The extractor: the second `:`-separated field of the decoded text,
      unless that field is missing or empty. */
  function ExtractApiKey(authHeader: string): (r: Extraction)
    ensures !StartsWith(authHeader, BasicPrefix) ==> r == NoKey
    ensures r == DecodeThrows <==>
              StartsWith(authHeader, BasicPrefix) && DecodedCredentials(authHeader).None?
    ensures r.ApiKey? ==> r.key != "" && ':' !in r.key
  {
    if !StartsWith(authHeader, BasicPrefix) then NoKey
    else match DecodedCredentials(authHeader)
      case None => DecodeThrows
      case Some(text) =>
        var fields := Split(text, ':');
        if |fields| >= 2 && fields[1] != "" then ApiKey(fields[1]) else NoKey
  }

  /** A returned key is exactly the text between the first colon and the
      next colon (or the end); `null` comes back exactly when there is no
      colon or that text is empty. */
  lemma ApiKeyIsSecondField(authHeader: string)
    requires StartsWith(authHeader, BasicPrefix)
    requires DecodedCredentials(authHeader).Some?
    ensures var text := DecodedCredentials(authHeader).value;
            ExtractApiKey(authHeader) ==
              match SecondField(text, ':')
              case None => NoKey
              case Some(field) => if field == "" then NoKey else ApiKey(field)
  {
    SplitSecondField(DecodedCredentials(authHeader).value, ':');
  }

  /** The key is a prefix of whatever follows the first colon: everything
      after a second colon in the password is lost. */
  lemma ApiKeyPrefixOfPassword(authHeader: string)
    requires ExtractApiKey(authHeader).ApiKey?
    ensures StartsWith(authHeader, BasicPrefix) && DecodedCredentials(authHeader).Some?
    ensures var text := DecodedCredentials(authHeader).value;
            var user := TakeUntil(text, ':');
            var key := ExtractApiKey(authHeader).key;
            |user| < |text| && StartsWith(text[|user| + 1..], key)
  {
    ApiKeyIsSecondField(authHeader);
  }

  /** The header a client sends under section 2 of RFC 7617: the scheme,
      then the Base64 of `user-id ":" password`. */
  function BasicHeader(user: string, password: string): string
    requires IsLatin1(user + ":" + password)
  {
    BasicPrefix + Base64.Encode(Latin1Bytes(user + ":" + password))
  }

  /** For a credential built as RFC 7617 prescribes, the key is the password
      up to its first colon, and `null` if that is empty. */
  lemma BasicHeaderKey(user: string, password: string)
    requires IsLatin1(user + ":" + password) && ':' !in user
    ensures var field := TakeUntil(password, ':');
            ExtractApiKey(BasicHeader(user, password)) ==
              if field == "" then NoKey else ApiKey(field)
  {
    var text := user + ":" + password;
    var h := BasicHeader(user, password);
    assert h[..|BasicPrefix|] == BasicPrefix;
    assert h[|BasicPrefix|..] == Base64.Encode(Latin1Bytes(text));
    Base64.DecodeEncode(Latin1Bytes(text));
    BinaryStringLatin1(text);
    assert DecodedCredentials(h) == Some(text);
    TakeUntilPastField(user, ':', password);
    assert text == user + [':'] + password;
    assert text[|user| + 1..] == password;
    ApiKeyIsSecondField(h);
  }

  /** A colon-free, non-empty password comes back whole. */
  lemma BasicHeaderPassword(user: string, password: string)
    requires IsLatin1(user + ":" + password) && ':' !in user
    requires ':' !in password && password != ""
    ensures ExtractApiKey(BasicHeader(user, password)) == ApiKey(password)
  {
    BasicHeaderKey(user, password);
    assert TakeUntil(password, ':') == password;
  }

  /** A password with a colon is cut at it: RFC 7617 allows colons in the
      password, the extractor keeps only the part before the first one. */
  lemma ColonInPasswordTruncates(user: string, head: string, tail: string)
    requires IsLatin1(user + ":" + (head + ":" + tail)) && ':' !in user
    requires ':' !in head && head != ""
    ensures ExtractApiKey(BasicHeader(user, head + ":" + tail)) == ApiKey(head)
  {
    BasicHeaderKey(user, head + ":" + tail);
    TakeUntilPastField(head, ':', tail);
    assert head + ":" + tail == head + [':'] + tail;
  }

  /** An empty password yields `null`, not an empty key. */
  lemma EmptyPasswordHasNoKey(user: string)
    requires IsLatin1(user + ":") && ':' !in user
    ensures ExtractApiKey(BasicHeader(user, "")) == NoKey
  {
    BasicHeaderKey(user, "");
  }
}
