/** Blocks of the Rust kernel and the foreign functions it relies on. */
module ChainBlocks {
  import opened Common

  const U64_SIZE: int := 0x1_0000_0000_0000_0000

  type U64 = x: int | 0 <= x < U64_SIZE

  /** `+ 1` on a `u64` in a release build. */
  function Next(i: U64): U64 { (i + 1) % U64_SIZE }

  datatype BlockType =
    | Journal | Ask | Decision | System | SystemEvent | ToolCall | ToolResult | Error
    | WalletTxRequested | WalletTxSigned | WalletTxBroadcast | WalletTxConfirmed | WalletTxFailed

  datatype BlockData = BlockData(blockType: BlockType, content: string, tags: seq<string>)

  datatype Block = Block(
    index: U64,
    timestamp: string,
    chain: string,
    data: BlockData,
    prevHash: string,
    hash: string,
    signer: Option<string>,
    signature: Option<string>
  ) {
    /** What the hash covers: everything but the hash itself, the signer and the signature. */
    function Covered(): Payload { Payload(index, timestamp, chain, data, prevHash) }
  }

  datatype Payload = Payload(index: U64, timestamp: string, chain: string, data: BlockData, prevHash: string)

  datatype SignatureCheck = Verified | NotVerified | Malformed

  /** The digest over the payload tuple, the RFC 3339 parser (section 5.6, as an instant on a line),
      and Ed25519 verification of a signer, a signature and a digest. */
  datatype Kernel = Kernel(
    digest: Payload -> string,
    instant: string -> Option<int>,
    verify: (string, string, string) -> SignatureCheck
  )

  /** Unicode White_Space, which `str::trim` removes. */
  predicate IsWhitespace(c: char) {
    || '\t' <= c <= '\r' || c == ' '
    || c == '\U{85}' || c == '\U{A0}' || c == '\U{1680}' || '\U{2000}' <= c <= '\U{200A}'
    || c == '\U{2028}' || c == '\U{2029}' || c == '\U{202F}' || c == '\U{205F}' || c == '\U{3000}'
  }

  /** `trim().is_empty()` */
  predicate IsBlank(s: string) { forall i :: 0 <= i < |s| ==> IsWhitespace(s[i]) }

  /** `str::trim`: the text without the white space at its two ends. */
  function Trim(s: string): (r: string) {
    if s == "" then ""
    else if IsWhitespace(s[0]) then Trim(s[1..])
    else if IsWhitespace(s[|s| - 1]) then Trim(s[..|s| - 1])
    else s
  }

  lemma {:induction false} TrimIsBlank(s: string)
    ensures Trim(s) == "" <==> IsBlank(s)
  {
    if s != "" {
      if IsWhitespace(s[0]) {
        TrimIsBlank(s[1..]);
        assert forall i :: 0 < i < |s| ==> s[i] == s[1..][i - 1];
      } else if IsWhitespace(s[|s| - 1]) {
        TrimIsBlank(s[..|s| - 1]);
      }
    }
  }

  predicate HasPathPart(s: string) {
    || '/' in s || '\\' in s
    || exists i :: 0 <= i < |s| - 1 && s[i] == '.' && s[i + 1] == '.'
  }

  lemma PathPartIff(s: string)
    ensures HasPathPart(s) <==>
            (exists c :: c in s && (c == '/' || c == '\\')) || exists before, after :: s == before + ".." + after
  {
    forall i | 0 <= i < |s| - 1 && s[i] == '.' && s[i + 1] == '.' ensures s == s[..i] + ".." + s[i + 2..] {}
    forall before, after | s == before + ".." + after ensures HasPathPart(s) {
      assert s[|before|] == '.' && s[|before| + 1] == '.';
    }
  }

  /** No signature at all is merely unverified; half a signature is an error. */
  function VerifySignature(k: Kernel, b: Block): SignatureCheck {
    match (b.signer, b.signature)
    case (None, None) => NotVerified
    case (Some(signer), Some(signature)) => k.verify(signer, signature, k.digest(b.Covered()))
    case _ => Malformed
  }

  function Last(blocks: seq<Block>): Option<Block> {
    if blocks == [] then None else Some(blocks[|blocks| - 1])
  }
}
