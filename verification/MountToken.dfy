/** The token with which the OBS node plugin has its mount commands accepted by the connector on the host. */
module MountToken {
  import opened GoStrings
  import opened AesCbc
  import opened Canonical
  import opened Wrappers

  type Parameters = map<GoString, GoString>

  type Hash = seq<Byte> -> seq<Byte>

  datatype Command = Command(token: GoString, parameters: Parameters)

  datatype Check = Accepted | Rejected | Crashed

  /** Text of a parameter's name. */
  function Name(s: string): GoString {
    seq(|s|, i requires 0 <= i < |s| => s[i] as int % 256)
  }

  function MountParameters(bucketName: GoString, targetPath: GoString, region: GoString, cloud: GoString,
                           credential: GoString): Parameters
  {
    map[Name("bucketName") := bucketName, Name("targetPath") := targetPath, Name("region") := region,
        Name("cloud") := cloud, Name("credential") := credential]
  }

  function MountNames(): set<GoString> {
    {Name("bucketName"), Name("targetPath"), Name("region"), Name("cloud"), Name("credential")}
  }

  const CREDENTIAL_DIR := Name("/var/lib/csi")

  /** Indexing a missing parameter gives the empty string. */
  function Lookup(parameters: Parameters, name: string): GoString {
    if Name(name) in parameters then parameters[Name(name)] else []
  }

  /** checkMountParameters: all five are there, and the credential file is one of the driver's directory. */
  predicate MountParametersPass(parameters: Parameters, fileExists: GoString -> bool) {
    && Lookup(parameters, "bucketName") != [] && Lookup(parameters, "targetPath") != []
    && Lookup(parameters, "region") != [] && Lookup(parameters, "cloud") != []
    && Lookup(parameters, "credential") != []
    && CREDENTIAL_DIR <= Lookup(parameters, "credential")
    && fileExists(Lookup(parameters, "credential"))
  }

  /** Refuses a command that lacks one of the five parameters or leaves it empty, whose credential file is not under
      the directory, or whose credential file is not there; and nothing else. */
  method CheckMountParameters(parameters: Parameters, fileExists: GoString -> bool) returns (passes: bool)
    ensures passes <==> MountParametersPass(parameters, fileExists)
    ensures passes <==>
              && (forall k | k in ["bucketName", "targetPath", "region", "cloud", "credential"] ::
                    Name(k) in parameters && parameters[Name(k)] != [])
              && Name("/var/lib/csi") <= parameters[Name("credential")]
              && fileExists(parameters[Name("credential")])
  {
    var keys := ["bucketName", "targetPath", "region", "cloud", "credential"];
    assert keys[0] == "bucketName" && keys[1] == "targetPath" && keys[2] == "region" && keys[3] == "cloud"
           && keys[4] == "credential";
    for i := 0 to |keys|
      invariant forall j | 0 <= j < i :: Lookup(parameters, keys[j]) != []
    {
      if Lookup(parameters, keys[i]) == [] { return false; }
    }
    var credentialFile := Lookup(parameters, "credential");
    passes := CREDENTIAL_DIR <= credentialFile && fileExists(credentialFile);
  }

  lemma NamesDiffer()
    ensures forall a, b | a in ["bucketName", "targetPath", "region", "cloud", "credential"]
                          && b in ["bucketName", "targetPath", "region", "cloud", "credential"] && a != b ::
              Name(a) != Name(b)
  {
    assert Name("bucketName")[0] == 98 && Name("targetPath")[0] == 116 && Name("region")[0] == 114;
    assert Name("cloud")[1] == 108 && Name("credential")[1] == 114 && Name("cloud")[0] == Name("credential")[0] == 99;
  }

  /** Each value the node puts in is the one the connector takes out under that name, and a command of a node that
      has a region and a cloud passes the connector's checks exactly if its credential file is there. */
  lemma ParametersArrive(bucketName: GoString, targetPath: GoString, region: GoString, cloud: GoString,
                         file: GoString, fileExists: GoString -> bool)
    requires bucketName != [] && targetPath != [] && region != [] && cloud != []
    ensures var credential := CREDENTIAL_DIR + [47] + file;
            var parameters := MountParameters(bucketName, targetPath, region, cloud, credential);
            && Lookup(parameters, "bucketName") == bucketName && Lookup(parameters, "targetPath") == targetPath
            && Lookup(parameters, "region") == region && Lookup(parameters, "cloud") == cloud
            && Lookup(parameters, "credential") == credential
            && (MountParametersPass(parameters, fileExists) <==> fileExists(credential))
  {
    NamesDiffer();
  }

  predicate NoSeparator(text: GoString) {
    EQUALS !in text && AMPERSAND !in text
  }

  lemma LettersAreNoSeparators(s: string)
    requires forall i | 0 <= i < |s| :: 'A' <= s[i] <= 'z'
    ensures NoSeparator(Name(s))
  {
  }

  lemma NamesAreClean()
    ensures forall k <- MountNames() :: NoSeparator(k)
  {
    LettersAreNoSeparators("bucketName");
    LettersAreNoSeparators("targetPath");
    LettersAreNoSeparators("region");
    LettersAreNoSeparators("cloud");
    LettersAreNoSeparators("credential");
  }

  lemma CleanPairs(a: GoString, v: GoString, b: GoString, w: GoString, c: GoString, x: GoString,
                   d: GoString, y: GoString, e: GoString, z: GoString)
    requires NoSeparator(a) && NoSeparator(b) && NoSeparator(c) && NoSeparator(d) && NoSeparator(e)
    requires AMPERSAND !in v && AMPERSAND !in w && AMPERSAND !in x && AMPERSAND !in y && AMPERSAND !in z
    ensures var m := map[a := v, b := w, c := x, d := y, e := z];
            Clean(m) && m.Keys == {a, b, c, d, e}
  {
  }

  /** The node's parameters are unambiguous as long as none of the five values holds an '&'. */
  lemma NodeParametersAreClean(bucketName: GoString, targetPath: GoString, region: GoString, cloud: GoString,
                               credential: GoString)
    requires AMPERSAND !in bucketName && AMPERSAND !in targetPath && AMPERSAND !in region
    requires AMPERSAND !in cloud && AMPERSAND !in credential
    ensures var parameters := MountParameters(bucketName, targetPath, region, cloud, credential);
            Clean(parameters) && parameters.Keys == MountNames()
  {
    NamesAreClean();
    CleanPairs(Name("bucketName"), bucketName, Name("targetPath"), targetPath, Name("region"), region,
               Name("cloud"), cloud, Name("credential"), credential);
  }

  /** What the node sends to have a bucket mounted; nothing if encryption fails. */
  method BuildMountCommand(aes: Aes, secret: GoString, sum: Hash, random: Option<Block>, bucketName: GoString,
                           targetPath: GoString, region: GoString, cloud: GoString, credential: GoString)
    returns (command: Option<Command>)
    ensures command.Some? <==> random.Some? && ValidKey(secret)
    ensures command.Some? ==>
              var parameters := MountParameters(bucketName, targetPath, region, cloud, credential);
              command.value == Command(TokenFor(aes, secret, sum, random.value, parameters), parameters)
  {
    var parameters := MountParameters(bucketName, targetPath, region, cloud, credential);
    var ciphertext := Sha256(parameters, sum);
    var token := EncryptAESCBC(aes, secret, ciphertext, random);
    command := if token.Ok? then Some(Command(token.text, parameters)) else None;
  }

  ghost function TokenFor(aes: Aes, secret: GoString, sum: Hash, iv: Block, parameters: Parameters): GoString
    requires ValidKey(secret)
  {
    Encrypted(aes, secret, iv, Hex(sum(CanonicalText(parameters)))).text
  }

  /** The token decrypts to the digest of these parameters. */
  ghost predicate Accepts(aes: Aes, secret: GoString, sum: Hash, token: GoString, parameters: Parameters) {
    Decrypted(aes, secret, token) == Ok(Hex(sum(CanonicalText(parameters))))
  }

  /** Accepted exactly if the token decrypts to the digest of the parameters it came with. */
  method CheckRequestToken(aes: Aes, secret: GoString, sum: Hash, token: GoString, parameters: Parameters)
    returns (check: Check)
    ensures check.Accepted? <==> Accepts(aes, secret, sum, token, parameters)
    ensures check.Crashed? <==> Decrypted(aes, secret, token).Panic?
  {
    var ciphertext := Sha256(parameters, sum);
    var original := DecryptAESCBC(aes, secret, token);
    match original {
      case Panic => return Crashed;
      case Error => return Rejected;
      case Ok(text) => return if ciphertext != text then Rejected else Accepted;
    }
  }

  /** A token made for some parameters is accepted with others exactly when their digests agree. */
  lemma TokenAcceptedIff(aes: Aes, secret: GoString, sum: Hash, iv: Block, made: Parameters, sent: Parameters)
    requires Bijection(aes(secret)) && ValidKey(secret)
    ensures Decrypted(aes, secret, TokenFor(aes, secret, sum, iv, made)) == Ok(Hex(sum(CanonicalText(made))))
    ensures Accepts(aes, secret, sum, TokenFor(aes, secret, sum, iv, made), sent)
            <==> sum(CanonicalText(made)) == sum(CanonicalText(sent))
  {
    DecryptUndoesEncrypt(aes, secret, iv, Hex(sum(CanonicalText(made))));
    if Hex(sum(CanonicalText(made))) == Hex(sum(CanonicalText(sent))) {
      HexInjective(sum(CanonicalText(made)), sum(CanonicalText(sent)));
    }
  }

  /** So the connector accepts every command the node builds, whatever is in the parameters. */
  method NodeCommandIsAccepted(aes: Aes, secret: GoString, sum: Hash, random: Option<Block>,
                               bucketName: GoString, targetPath: GoString, region: GoString, cloud: GoString,
                               credential: GoString)
    returns (check: Option<Check>)
    requires Bijection(aes(secret))
    ensures check == if random.Some? && ValidKey(secret) then Some(Accepted) else None
  {
    var command := BuildMountCommand(aes, secret, sum, random, bucketName, targetPath, region, cloud, credential);
    if command.None? { return None; }
    TokenAcceptedIff(aes, secret, sum, random.value, command.value.parameters, command.value.parameters);
    var verdict := CheckRequestToken(aes, secret, sum, command.value.token, command.value.parameters);
    check := Some(verdict);
  }

  /** The hash does not tell these parameters apart, though their texts differ. */
  ghost predicate Collide(sum: Hash, a: Parameters, b: Parameters) {
    CanonicalText(a) != CanonicalText(b) && sum(CanonicalText(a)) == sum(CanonicalText(b))
  }

  /** The connector does not look whether what it receives is clean. Still a token made for clean parameters is
      accepted with no others that hold all their names, as long as the hash does not collide on the two. */
  lemma TokenBindsNames(aes: Aes, secret: GoString, sum: Hash, iv: Block, made: Parameters, sent: Parameters)
    requires Bijection(aes(secret)) && ValidKey(secret) && Clean(made)
    ensures !Collide(sum, made, sent) ==>
              (Accepts(aes, secret, sum, TokenFor(aes, secret, sum, iv, made), sent) && made.Keys <= sent.Keys
               <==> made == sent)
  {
    TokenAcceptedIff(aes, secret, sum, iv, made, sent);
    if CanonicalText(made) == CanonicalText(sent) { TextBindsKeys(made, sent); }
  }

  /** So a request that passes both of the connector's checks with the token of a clean mount command carries the
      very parameters of that command. */
  lemma TokenBindsCommand(aes: Aes, secret: GoString, sum: Hash, iv: Block, made: Parameters, sent: Parameters,
                          fileExists: GoString -> bool)
    requires Bijection(aes(secret)) && ValidKey(secret) && Clean(made) && made.Keys <= MountNames()
    ensures !Collide(sum, made, sent) ==>
              (Accepts(aes, secret, sum, TokenFor(aes, secret, sum, iv, made), sent)
               && MountParametersPass(sent, fileExists)
               <==> sent == made && MountParametersPass(made, fileExists))
  {
    TokenBindsNames(aes, secret, sum, iv, made, sent);
    if MountParametersPass(sent, fileExists) { NamesAreThere(sent, fileExists); }
  }

  lemma NamesAreThere(sent: Parameters, fileExists: GoString -> bool)
    requires MountParametersPass(sent, fileExists)
    ensures MountNames() <= sent.Keys
  {
  }

  /** In particular for every command of a node, if none of its values holds an '&'. */
  lemma TokenBindsParameters(aes: Aes, secret: GoString, sum: Hash, iv: Block, bucketName: GoString,
                             targetPath: GoString, region: GoString, cloud: GoString, credential: GoString,
                             sent: Parameters, fileExists: GoString -> bool)
    requires Bijection(aes(secret)) && ValidKey(secret)
    requires AMPERSAND !in bucketName && AMPERSAND !in targetPath && AMPERSAND !in region
    requires AMPERSAND !in cloud && AMPERSAND !in credential
    ensures var made := MountParameters(bucketName, targetPath, region, cloud, credential);
            !Collide(sum, made, sent) ==>
              (Accepts(aes, secret, sum, TokenFor(aes, secret, sum, iv, made), sent)
               && MountParametersPass(sent, fileExists)
               <==> sent == made && MountParametersPass(made, fileExists))
  {
    var made := MountParameters(bucketName, targetPath, region, cloud, credential);
    NodeParametersAreClean(bucketName, targetPath, region, cloud, credential);
    TokenBindsCommand(aes, secret, sum, iv, made, sent, fileExists);
  }

  /** The names are needed: a token is accepted as well with the parameters in which a value has swallowed the next
      pair, clean as those may be that it was made for, whatever the cipher, the key, the vector and the hash. */
  lemma TokenAcceptedWithOthers(aes: Aes, secret: GoString, sum: Hash, iv: Block, made: Parameters, first: GoString,
                                second: GoString)
    requires Bijection(aes(secret)) && ValidKey(secret)
    requires first in made && second in made && Less(first, second)
    requires forall k <- made.Keys :: !(Less(first, k) && Less(k, second))
    ensures var sent := Swallowed(made, first, second);
            made != sent && Accepts(aes, secret, sum, TokenFor(aes, secret, sum, iv, made), sent)
  {
    AmpersandIsAmbiguous(made, first, second);
    assert second !in Swallowed(made, first, second);
    TokenAcceptedIff(aes, secret, sum, iv, made, Swallowed(made, first, second));
  }

  lemma SwallowedPair(m: Parameters, first: GoString, x: GoString, second: GoString, y: GoString)
    requires first in m && second !in m
    ensures Swallowed(m[first := x][second := y], first, second) == m[first := Merged(x, second, y)]
  {
  }

  /** A further parameter, or another region that is not empty, does not matter to the other checks. */
  lemma PassAlike(command: Parameters, x: GoString, y: GoString, value: GoString, fileExists: GoString -> bool)
    requires x != [] && y != []
    ensures MountParametersPass(command[Name("region") := x][Name("s") := value], fileExists) <==>
            MountParametersPass(command[Name("region") := y], fileExists)
  {
    NamesDiffer();
    NothingBetween();
  }

  lemma SameTextWithHidden(command: Parameters, region: GoString, value: GoString)
    requires command.Keys == MountNames()
    ensures CanonicalText(command[Name("region") := Merged(region, Name("s"), value)]) ==
            CanonicalText(command[Name("region") := region][Name("s") := value])
  {
    var sent := command[Name("region") := region][Name("s") := value];
    NothingBetween();
    SwallowedPair(command, Name("region"), region, Name("s"), value);
    AmpersandIsAmbiguous(sent, Name("region"), Name("s"));
  }

  /** And the '&' is needed to be absent: the token of a command whose region is R&s=w is accepted with region R and a
      further parameter s = w, and those pass the other checks just as its own parameters do. */
  lemma RegionMayHideParameter(aes: Aes, secret: GoString, sum: Hash, iv: Block, command: Parameters,
                               region: GoString, value: GoString, fileExists: GoString -> bool)
    requires Bijection(aes(secret)) && ValidKey(secret) && region != [] && command.Keys == MountNames()
    ensures var made := command[Name("region") := Merged(region, Name("s"), value)];
            var sent := command[Name("region") := region][Name("s") := value];
            && made != sent
            && Accepts(aes, secret, sum, TokenFor(aes, secret, sum, iv, made), sent)
            && (MountParametersPass(sent, fileExists) <==> MountParametersPass(made, fileExists))
  {
    var made := command[Name("region") := Merged(region, Name("s"), value)];
    var sent := command[Name("region") := region][Name("s") := value];
    SameTextWithHidden(command, region, value);
    TokenAcceptedIff(aes, secret, sum, iv, made, sent);
    assert made != sent by {
      NothingBetween();
      assert Name("s") in sent && Name("s") !in made;
    }
    PassAlike(command, region, Merged(region, Name("s"), value), value, fileExists);
  }

  lemma NothingBetween()
    ensures Name("s") !in MountNames() && Less(Name("region"), Name("s"))
    ensures forall k <- MountNames() :: !(Less(Name("region"), k) && Less(k, Name("s")))
  {
    assert Name("bucketName")[0] == 98 && Name("cloud")[0] == 99 && Name("credential")[0] == 99;
    assert Name("region")[0] == 114 && Name("s") == [115] && Name("targetPath")[0] == 116;
    LessIrreflexive(Name("region"));
  }
}
