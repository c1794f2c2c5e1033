/** The metadata instructions of the interpreter: `GM` (read a piece of the
    execution context) and `GTF` (read a field of the running transaction).
    Both compute one word, write it to a user register `ra` and advance pc;
    each failure is a `PanicReason`.

    The transaction is modelled by what `GTF` reads from it: for every input,
    output and witness its offset in the serialized transaction and the
    field offsets and values its variant has (a field the variant lacks is
    absent), the policies, and the body of the transaction type. How those
    offsets follow from the serialization is not part of this model. */
module Metadata {
  import opened Wrappers
  import opened FuelTypes
  import opened ByteOrder

  /** The panic reasons `GM`, `GTF` and the register write can raise. */
  datatype PanicReason =
    | ReservedRegisterNotWritable
    | MemoryOverflow
    | TransactionValidity
    | ExpectedNestedCaller
    | ExpectedInternalContext
    | CanNotGetGasPriceInPredicate
    | InvalidMetadataIdentifier
    | PolicyIsNotSet
    | InputNotFound
    | OutputNotFound
    | WitnessNotFound
    | StorageSlotsNotFound
    | ProofInUploadNotFound

  /** `usize` on the 64-bit targets the VM runs on. */
  const USIZE_MAX: nat := WORD_MAX
  /** `WORD_SIZE`: bytes in a word. */
  const WORD_SIZE: Word := 8
  /** `VM_MEMORY_BASE_ASSET_ID_OFFSET`: the base asset id sits at address 0. */
  const VM_MEMORY_BASE_ASSET_ID_OFFSET: Word := 0
  /** Registers below this index are system registers and cannot be written. */
  const VM_REGISTER_SYSTEM_COUNT: nat := 16
  const VM_REGISTER_COUNT: nat := 64
  /** `RegId::PC`. */
  const PC: nat := 3

  type RegId = r: nat | r < VM_REGISTER_COUNT
  type U16 = x: nat | x <= 0xFFFF

  /** `usize::saturating_add`: the sum, or the largest value when it would
      overflow. */
  function SatAdd(x: Word, y: Word): (r: Word)
    ensures x <= r && y <= r
    ensures x + y <= USIZE_MAX ==> r == x + y
    ensures x + y > USIZE_MAX ==> r == USIZE_MAX
  {
    if x + y <= WORD_MAX then x + y else WORD_MAX
  }

  // ---------------------------------------------------------------------------
  // GM
  // ---------------------------------------------------------------------------

  /** The execution context. A predicate knows the index of the input it
      verifies. */
  datatype Context =
    | PredicateEstimation(predicateIdx: Word)
    | PredicateVerification(predicateIdx: Word)
    | Script(blockHeight: Word)
    | Call(blockHeight: Word)
    | NotInitialized
  {
    /** Only a contract call is internal. */
    predicate IsInternal() { Call? }
    predicate IsPredicate() { PredicateEstimation? || PredicateVerification? }
  }

  /** A call frame, reduced to the frame pointer register it saved. */
  datatype CallFrame = CallFrame(fp: Word)

  /** `GMArgs`: the selectors of `GM`. */
  datatype GmArgs =
    | GetVerifyingPredicate
    | GetChainId
    | BaseAssetId
    | TxStart
    | GetCaller
    | IsCallerExternal
    | GetGasPrice

  /** The caller's frame pointer: only inside a call, and only when a frame
      exists. */
  function Parent(context: Context, frames: seq<CallFrame>): (p: Option<Word>)
    ensures p.Some? <==> context.IsInternal() && |frames| > 0
    ensures p.Some? ==> p.value == frames[|frames| - 1].fp
  {
    if context.IsInternal() && |frames| > 0 then Some(frames[|frames| - 1].fp) else None
  }

  /** The value `GM` computes; `None` stands for an immediate that is not a
      `GMArgs` selector. */
  function GmValue(context: Context, frames: seq<CallFrame>, imm: Option<GmArgs>,
                   chainId: Word, txOffset: Word, gasPrice: Word): (r: Result<Word, PanicReason>)
    ensures imm.None? ==> r == Err(InvalidMetadataIdentifier)
    ensures imm == Some(GetVerifyingPredicate) ==>
      if context.IsPredicate() then r == Ok(context.predicateIdx) else r == Err(TransactionValidity)
    ensures imm == Some(GetChainId) ==> r == Ok(chainId)
    ensures imm == Some(BaseAssetId) ==> r == Ok(VM_MEMORY_BASE_ASSET_ID_OFFSET)
    ensures imm == Some(TxStart) ==> r == Ok(txOffset)
    ensures imm == Some(GetCaller) ==>
      (r.Ok? <==> context.Call? && |frames| > 0 && frames[|frames| - 1].fp != 0)
      && (r.Ok? ==> r.value == frames[|frames| - 1].fp)
      && (r == Err(ExpectedNestedCaller) <==> context.Call? && |frames| > 0 && frames[|frames| - 1].fp == 0)
      && (r == Err(ExpectedInternalContext) <==> !context.Call? || |frames| == 0)
    ensures imm == Some(IsCallerExternal) ==>
      (r.Ok? <==> context.Call? && |frames| > 0)
      && (r.Ok? ==> (r.value == 1 <==> frames[|frames| - 1].fp == 0) && r.value <= 1)
      && (r.Err? ==> r.error == ExpectedInternalContext)
    ensures imm == Some(GetGasPrice) ==>
      if context.IsPredicate() then r == Err(CanNotGetGasPriceInPredicate) else r == Ok(gasPrice)
  {
    var parent := Parent(context, frames);
    match imm
    case None => Err(InvalidMetadataIdentifier)
    case Some(args) =>
      match args
      case GetVerifyingPredicate =>
        if context.IsPredicate() then Ok(context.predicateIdx) else Err(TransactionValidity)
      case GetChainId => Ok(chainId)
      case BaseAssetId => Ok(VM_MEMORY_BASE_ASSET_ID_OFFSET)
      case TxStart => Ok(txOffset)
      case GetCaller =>
        (match parent
         case Some(p) => if p == 0 then Err(ExpectedNestedCaller) else Ok(p)
         case None => Err(ExpectedInternalContext))
      case IsCallerExternal =>
        (match parent
         case Some(p) => Ok(if p == 0 then 1 else 0)
         case None => Err(ExpectedInternalContext))
      case GetGasPrice =>
        if context.IsPredicate() then Err(CanNotGetGasPriceInPredicate) else Ok(gasPrice)
  }

  // ---------------------------------------------------------------------------
  // The transaction as GTF sees it
  // ---------------------------------------------------------------------------

  /** `InputRepr`; its discriminant is what `InputType` reports. */
  datatype InputRepr = Coin | Contract | Message
  {
    function Code(): Word
    {
      match this
      case Coin => 0
      case Contract => 1
      case Message => 2
    }
  }

  /** The fields of an input that `GTF` reports as an address. */
  datatype InputOffset =
    | UtxoId | Owner | AssetId | TxPointer | Predicate | PredicateData
    | ContractId | Sender | Recipient | Nonce | Data

  /** The fields of an input that `GTF` reports as a value. */
  datatype InputValue =
    | OutputIndex | Amount | WitnessIndex | PredicateLength | PredicateDataLength
    | PredicateGasUsed | DataLength

  /** One input: its variant, where it starts in the serialized transaction,
      and the offsets (relative to that start) and values of the fields this
      input has. */
  datatype TxInput = TxInput(repr: InputRepr, at: Word,
                             offsets: map<InputOffset, Word>, values: map<InputValue, Word>)

  /** `OutputRepr`; its discriminant is what `OutputType` reports. */
  datatype OutputRepr = Coin | Contract | Change | Variable | ContractCreated
  {
    function Code(): Word
    {
      match this
      case Coin => 0
      case Contract => 1
      case Change => 2
      case Variable => 3
      case ContractCreated => 4
    }
  }

  datatype OutputOffset = To | AssetId | ContractId | StateRoot
  datatype OutputValue = Amount | InputIndex

  datatype TxOutput = TxOutput(repr: OutputRepr, at: Word,
                               offsets: map<OutputOffset, Word>, values: map<OutputValue, Word>)

  /** A witness: the length of its data and where it starts. */
  datatype TxWitness = TxWitness(dataLength: Word, at: Word)

  datatype PolicyType = Tip | WitnessLimit | Maturity | Expiration | MaxFee

  /** The part of each executable transaction type that `GTF` reads. Offsets
      are relative to the start of the transaction; a storage slot or a
      proof-set entry is given by its offset. */
  datatype TxBody =
    | Script(gasLimit: Word, scriptLength: Word, scriptDataLength: Word,
             scriptOffset: Word, scriptDataOffset: Word)
    | Create(bytecodeWitnessIndex: Word, storageSlotsAt: seq<Word>, saltOffset: Word)
    | Upgrade(purposeOffset: Word)
    | Upload(rootOffset: Word, witnessIndex: Word, subsectionIndex: Word,
             subsectionsNumber: Word, proofSetAt: seq<Word>)
    | Blob(blobIdOffset: Word, witnessIndex: Word)
  {
    /** `TransactionRepr`, as `Tx::transaction_type` reports it. */
    function TypeCode(): Word
    {
      match this
      case Script(_, _, _, _, _) => 0
      case Create(_, _, _) => 1
      case Upgrade(_) => 3
      case Upload(_, _, _, _, _) => 4
      case Blob(_, _) => 5
    }
  }

  datatype Tx = Tx(body: TxBody, policyBits: Word, policies: map<PolicyType, Word>,
                   inputs: seq<TxInput>, outputs: seq<TxOutput>, witnesses: seq<TxWitness>)

  /** Every collection of the transaction has a length that fits a word, as
      a `Vec` length always does. */
  predicate Sized(tx: Tx)
  {
    |tx.inputs| <= WORD_MAX && |tx.outputs| <= WORD_MAX && |tx.witnesses| <= WORD_MAX
    && (tx.body.Create? ==> |tx.body.storageSlotsAt| <= WORD_MAX)
    && (tx.body.Upload? ==> |tx.body.proofSetAt| <= WORD_MAX)
  }

  // ---------------------------------------------------------------------------
  // GTF
  // ---------------------------------------------------------------------------

  /** `GTFArgs`: the selectors of `GTF`. The `Script`/`Create`/`Tx` spellings
      of the counts and of the at-index selectors are aliases. */
  datatype GtfArgs =
    | Type | ScriptGasLimit | PolicyTypes | PolicyTip | PolicyWitnessLimit
    | PolicyMaturity | PolicyExpiration | PolicyMaxFee
    | ScriptInputsCount | CreateInputsCount | TxInputsCount
    | ScriptOutputsCount | CreateOutputsCount | TxOutputsCount
    | ScriptWitnessesCount | CreateWitnessesCount | TxWitnessesCount
    | ScriptInputAtIndex | CreateInputAtIndex | TxInputAtIndex
    | ScriptOutputAtIndex | CreateOutputAtIndex | TxOutputAtIndex
    | ScriptWitnessAtIndex | CreateWitnessAtIndex | TxWitnessAtIndex
    | TxLength
    | InputType
    | InputCoinTxId | InputCoinOutputIndex | InputCoinOwner | InputCoinAmount
    | InputCoinAssetId | InputCoinTxPointer | InputCoinWitnessIndex
    | InputCoinPredicateLength | InputCoinPredicateDataLength | InputCoinPredicateGasUsed
    | InputCoinPredicate | InputCoinPredicateData
    | InputContractTxId | InputContractOutputIndex | InputContractId
    | InputMessageSender | InputMessageRecipient | InputMessageAmount | InputMessageNonce
    | InputMessageWitnessIndex | InputMessageDataLength | InputMessagePredicateLength
    | InputMessagePredicateDataLength | InputMessagePredicateGasUsed
    | InputMessageData | InputMessagePredicate | InputMessagePredicateData
    | OutputType | OutputCoinTo | OutputCoinAmount | OutputCoinAssetId
    | OutputContractInputIndex | OutputContractCreatedContractId | OutputContractCreatedStateRoot
    | WitnessDataLength | WitnessData
    | ScriptLength | ScriptDataLength | Script | ScriptData
    | CreateBytecodeWitnessIndex | CreateStorageSlotsCount | CreateSalt | CreateStorageSlotAtIndex
    | BlobId | BlobWitnessIndex
    | UploadRoot | UploadWitnessIndex | UploadSubsectionIndex | UploadSubsectionsCount
    | UploadProofSetCount | UploadProofSetAtIndex
    | UpgradePurpose
  {
    /** The selectors that only one transaction type answers. */
    predicate IsTypeSpecific()
    {
      QueryOf(this).TypeSpecific?
    }

    /** A type-specific selector asked of the transaction type it belongs to. */
    predicate BelongsTo(body: TxBody)
    {
      match body
      case Script(_, _, _, _, _) => ScriptLength? || ScriptDataLength? || Script? || ScriptData?
      case Create(_, _, _) =>
        CreateBytecodeWitnessIndex? || CreateStorageSlotsCount? || CreateSalt? || CreateStorageSlotAtIndex?
      case Blob(_, _) => BlobId? || BlobWitnessIndex?
      case Upload(_, _, _, _, _) =>
        UploadRoot? || UploadWitnessIndex? || UploadSubsectionIndex? || UploadSubsectionsCount?
        || UploadProofSetCount? || UploadProofSetAtIndex?
      case Upgrade(_) => UpgradePurpose?
    }

    /** The type-specific selectors whose answer is an address. */
    predicate IsTypeSpecificAddress()
    {
      Script? || ScriptData? || CreateSalt? || CreateStorageSlotAtIndex?
      || BlobId? || UploadRoot? || UploadProofSetAtIndex? || UpgradePurpose?
    }

    /** The selectors whose answer is an address: the transaction's start plus
        an offset. */
    predicate IsAddress()
    {
      QueryOf(this).IsAddress()
    }

    /** The selectors that read input `b`. */
    predicate IsInputField()
    {
      QueryOf(this).ReadsInput()
    }

    /** The selectors that read output `b`. */
    predicate IsOutputField()
    {
      QueryOf(this).ReadsOutput()
    }
  }

  /** The answers of the type-specific selectors. */
  function TypeSpecificField(body: TxBody, ofs: Word, b: nat, args: GtfArgs): (r: Result<Word, PanicReason>)
    requires body.Create? ==> |body.storageSlotsAt| <= WORD_MAX
    requires body.Upload? ==> |body.proofSetAt| <= WORD_MAX
    ensures r == Err(InvalidMetadataIdentifier) <==> !args.BelongsTo(body)
    ensures args.IsTypeSpecificAddress() && r.Ok? ==> ofs <= r.value
  {
    match body
    case Script(_, scriptLength, scriptDataLength, scriptAt, scriptDataAt) =>
      if args.ScriptLength? then Ok(scriptLength)
      else if args.ScriptDataLength? then Ok(scriptDataLength)
      else if args.Script? then Ok(SatAdd(ofs, scriptAt))
      else if args.ScriptData? then Ok(SatAdd(ofs, scriptDataAt))
      else Err(InvalidMetadataIdentifier)
    case Create(witnessIndex, slots, saltAt) =>
      if args.CreateBytecodeWitnessIndex? then Ok(witnessIndex)
      else if args.CreateStorageSlotsCount? then Ok(|slots|)
      else if args.CreateSalt? then Ok(SatAdd(ofs, saltAt))
      else if args.CreateStorageSlotAtIndex? then
        (if b < |slots| then Ok(SatAdd(ofs, slots[b])) else Err(StorageSlotsNotFound))
      else Err(InvalidMetadataIdentifier)
    case Blob(blobIdAt, witnessIndex) =>
      if args.BlobId? then Ok(SatAdd(ofs, blobIdAt))
      else if args.BlobWitnessIndex? then Ok(witnessIndex)
      else Err(InvalidMetadataIdentifier)
    case Upload(rootAt, witnessIndex, subsectionIndex, subsectionsNumber, proofs) =>
      if args.UploadRoot? then Ok(SatAdd(ofs, rootAt))
      else if args.UploadWitnessIndex? then Ok(witnessIndex)
      else if args.UploadSubsectionIndex? then Ok(subsectionIndex)
      else if args.UploadSubsectionsCount? then Ok(subsectionsNumber)
      else if args.UploadProofSetCount? then Ok(|proofs|)
      else if args.UploadProofSetAtIndex? then
        (if b < |proofs| then Ok(SatAdd(ofs, proofs[b])) else Err(ProofInUploadNotFound))
      else Err(InvalidMetadataIdentifier)
    case Upgrade(purposeAt) =>
      if args.UpgradePurpose? then Ok(SatAdd(ofs, purposeAt)) else Err(InvalidMetadataIdentifier)
  }

  /** What a selector other than a type-specific one reads: a word known
      from the transaction as a whole, or a field of item `b`. */
  datatype Query =
    | TypeCode
    | GasLimit
    | PolicyBits
    | InputsCount
    | OutputsCount
    | WitnessesCount
    | TxLengthValue
    | PolicyValue(p: PolicyType)
    | InputAt
    | OutputAt
    | WitnessAt
    | InputKind
    | InputFieldAddress(kind: InputRepr, offset: InputOffset)
    | InputFieldValue(kind: InputRepr, value: InputValue)
    | ContractInputOutputIndex
    | OutputKind
    | OutputFieldAddress(outputKinds: set<OutputRepr>, outputOffset: OutputOffset)
    | OutputFieldValue(outputKind: OutputRepr, outputValue: OutputValue, missingIsInput: bool)
    | WitnessLength
    | WitnessDataAt
    | TypeSpecific(args: GtfArgs)
  {
    predicate IsAddress()
    {
      InputAt? || OutputAt? || WitnessAt? || InputFieldAddress? || OutputFieldAddress? || WitnessDataAt?
      || (TypeSpecific? && args.IsTypeSpecificAddress())
    }

    predicate ReadsInput()
    {
      InputKind? || InputFieldAddress? || InputFieldValue? || ContractInputOutputIndex?
    }

    predicate ReadsOutput()
    {
      OutputKind? || OutputFieldAddress? || OutputFieldValue?
    }
  }

  /** The arms of `get_transaction_field`: which part of the transaction
      each selector reads. */
  function QueryOf(args: GtfArgs): (q: Query)
    ensures q.TypeSpecific? ==> q.args == args
    ensures q.ContractInputOutputIndex? <==> args.InputContractOutputIndex?
    ensures q.OutputFieldValue? ==> (q.missingIsInput <==> args.OutputContractInputIndex?)
  {
    match args
    case Type => TypeCode
    case ScriptGasLimit => GasLimit
    case PolicyTypes => PolicyBits
    case PolicyTip => PolicyValue(Tip)
    case PolicyWitnessLimit => PolicyValue(WitnessLimit)
    case PolicyMaturity => PolicyValue(Maturity)
    case PolicyExpiration => PolicyValue(Expiration)
    case PolicyMaxFee => PolicyValue(MaxFee)
    case ScriptInputsCount | CreateInputsCount | TxInputsCount => InputsCount
    case ScriptOutputsCount | CreateOutputsCount | TxOutputsCount => OutputsCount
    case ScriptWitnessesCount | CreateWitnessesCount | TxWitnessesCount => WitnessesCount
    case ScriptInputAtIndex | CreateInputAtIndex | TxInputAtIndex => InputAt
    case ScriptOutputAtIndex | CreateOutputAtIndex | TxOutputAtIndex => OutputAt
    case ScriptWitnessAtIndex | CreateWitnessAtIndex | TxWitnessAtIndex => WitnessAt
    case TxLength => TxLengthValue
    case InputType => InputKind
    case InputCoinTxId => InputFieldAddress(InputRepr.Coin, UtxoId)
    case InputCoinOutputIndex => InputFieldValue(InputRepr.Coin, OutputIndex)
    case InputCoinOwner => InputFieldAddress(InputRepr.Coin, Owner)
    case InputCoinAmount => InputFieldValue(InputRepr.Coin, InputValue.Amount)
    case InputCoinAssetId => InputFieldAddress(InputRepr.Coin, InputOffset.AssetId)
    case InputCoinTxPointer => InputFieldAddress(InputRepr.Coin, TxPointer)
    case InputCoinWitnessIndex => InputFieldValue(InputRepr.Coin, WitnessIndex)
    case InputCoinPredicateLength => InputFieldValue(InputRepr.Coin, PredicateLength)
    case InputCoinPredicateDataLength => InputFieldValue(InputRepr.Coin, PredicateDataLength)
    case InputCoinPredicateGasUsed => InputFieldValue(InputRepr.Coin, PredicateGasUsed)
    case InputCoinPredicate => InputFieldAddress(InputRepr.Coin, Predicate)
    case InputCoinPredicateData => InputFieldAddress(InputRepr.Coin, PredicateData)
    case InputContractTxId => InputFieldAddress(InputRepr.Contract, UtxoId)
    case InputContractOutputIndex => ContractInputOutputIndex
    case InputContractId => InputFieldAddress(InputRepr.Contract, InputOffset.ContractId)
    case InputMessageSender => InputFieldAddress(Message, Sender)
    case InputMessageRecipient => InputFieldAddress(Message, Recipient)
    case InputMessageAmount => InputFieldValue(Message, InputValue.Amount)
    case InputMessageNonce => InputFieldAddress(Message, Nonce)
    case InputMessageWitnessIndex => InputFieldValue(Message, WitnessIndex)
    case InputMessageDataLength => InputFieldValue(Message, DataLength)
    case InputMessagePredicateLength => InputFieldValue(Message, PredicateLength)
    case InputMessagePredicateDataLength => InputFieldValue(Message, PredicateDataLength)
    case InputMessagePredicateGasUsed => InputFieldValue(Message, PredicateGasUsed)
    case InputMessageData => InputFieldAddress(Message, Data)
    case InputMessagePredicate => InputFieldAddress(Message, Predicate)
    case InputMessagePredicateData => InputFieldAddress(Message, PredicateData)
    case OutputType => OutputKind
    case OutputCoinTo => OutputFieldAddress({OutputRepr.Coin, Change}, To)
    case OutputCoinAmount => OutputFieldValue(OutputRepr.Coin, OutputValue.Amount, false)
    case OutputCoinAssetId => OutputFieldAddress({OutputRepr.Coin, Change}, OutputOffset.AssetId)
    case OutputContractInputIndex => OutputFieldValue(OutputRepr.Contract, InputIndex, true)
    case OutputContractCreatedContractId => OutputFieldAddress({ContractCreated}, OutputOffset.ContractId)
    case OutputContractCreatedStateRoot => OutputFieldAddress({ContractCreated}, StateRoot)
    case WitnessDataLength => WitnessLength
    case WitnessData => WitnessDataAt
    case _ => TypeSpecific(args)
  }

  /** Reads what `q` names. An item, or a field of it, that does not exist is
      `InputNotFound`, `OutputNotFound` or `WitnessNotFound`; an unset policy
      is `PolicyIsNotSet`. Every address is the transaction's start plus the
      item's start plus the field's offset, each sum saturating. */
  function Answer(tx: Tx, inputContractOutput: map<U16, U16>, ofs: Word, txSize: Word, b: nat, q: Query): (r: Result<Word, PanicReason>)
    requires Sized(tx)
    ensures q.IsAddress() && r.Ok? ==> ofs <= r.value
    ensures r == Err(InvalidMetadataIdentifier) <==>
      (q.ContractInputOutputIndex? && b > 0xFFFF) || (q.TypeSpecific? && !q.args.BelongsTo(tx.body))
  {
    match q
    case TypeCode => Ok(tx.body.TypeCode())
    case GasLimit => Ok(if tx.body.Script? then tx.body.gasLimit else 0)
    case PolicyBits => Ok(tx.policyBits)
    case InputsCount => Ok(|tx.inputs|)
    case OutputsCount => Ok(|tx.outputs|)
    case WitnessesCount => Ok(|tx.witnesses|)
    case TxLengthValue => Ok(txSize)
    case PolicyValue(p) => if p in tx.policies then Ok(tx.policies[p]) else Err(PolicyIsNotSet)
    case InputAt => if b < |tx.inputs| then Ok(SatAdd(ofs, tx.inputs[b].at)) else Err(InputNotFound)
    case OutputAt => if b < |tx.outputs| then Ok(SatAdd(ofs, tx.outputs[b].at)) else Err(OutputNotFound)
    case WitnessAt => if b < |tx.witnesses| then Ok(SatAdd(ofs, tx.witnesses[b].at)) else Err(WitnessNotFound)
    case InputKind => if b < |tx.inputs| then Ok(tx.inputs[b].repr.Code()) else Err(InputNotFound)
    case InputFieldAddress(kind, field) =>
      if b < |tx.inputs| && tx.inputs[b].repr == kind && field in tx.inputs[b].offsets then
        Ok(SatAdd(ofs, SatAdd(tx.inputs[b].at, tx.inputs[b].offsets[field])))
      else Err(InputNotFound)
    case InputFieldValue(kind, field) =>
      if b < |tx.inputs| && tx.inputs[b].repr == kind && field in tx.inputs[b].values then
        Ok(tx.inputs[b].values[field])
      else Err(InputNotFound)
    case ContractInputOutputIndex =>
      if b > 0xFFFF then Err(InvalidMetadataIdentifier)
      else if b in inputContractOutput then Ok(inputContractOutput[b])
      else Err(InputNotFound)
    case OutputKind => if b < |tx.outputs| then Ok(tx.outputs[b].repr.Code()) else Err(OutputNotFound)
    case OutputFieldAddress(kinds, field) =>
      if b < |tx.outputs| && tx.outputs[b].repr in kinds && field in tx.outputs[b].offsets then
        Ok(SatAdd(ofs, SatAdd(tx.outputs[b].at, tx.outputs[b].offsets[field])))
      else Err(OutputNotFound)
    case OutputFieldValue(kind, field, missingIsInput) =>
      if b < |tx.outputs| && tx.outputs[b].repr == kind && field in tx.outputs[b].values then
        Ok(tx.outputs[b].values[field])
      else if missingIsInput then Err(InputNotFound)
      else Err(OutputNotFound)
    case WitnessLength => if b < |tx.witnesses| then Ok(tx.witnesses[b].dataLength) else Err(WitnessNotFound)
    case WitnessDataAt =>
      if b < |tx.witnesses| then Ok(SatAdd(SatAdd(ofs, tx.witnesses[b].at), WORD_SIZE)) else Err(WitnessNotFound)
    case TypeSpecific(args) => TypeSpecificField(tx.body, ofs, b, args)
  }

  /** The value `GTF` computes for selector `imm` and index `b`, with the
      transaction serialized at `ofs` and `txSize` bytes long. `None` stands
      for an immediate that is not a `GTFArgs` selector. A word index always
      fits the 64-bit `usize`, so converting `b` cannot fail. */
  function GtfValue(tx: Tx, inputContractOutput: map<U16, U16>, ofs: Word, txSize: Word,
                    b: Word, imm: Option<GtfArgs>): Result<Word, PanicReason>
    requires Sized(tx)
  {
    match imm
    case None => Err(InvalidMetadataIdentifier)
    case Some(args) => Answer(tx, inputContractOutput, ofs, txSize, b, QueryOf(args))
  }

  // ---------------------------------------------------------------------------
  // Properties of GTF
  // ---------------------------------------------------------------------------

  /** `GTF` rejects an identifier exactly when the immediate is no selector,
      a contract input's index does not fit a `u16`, or a type-specific
      selector is asked of another type. */
  lemma GtfInvalidIdentifier(tx: Tx, m: map<U16, U16>, ofs: Word, txSize: Word, b: Word, imm: Option<GtfArgs>)
    requires Sized(tx)
    ensures GtfValue(tx, m, ofs, txSize, b, imm) == Err(InvalidMetadataIdentifier)
      <==> imm.None?
           || (imm == Some(InputContractOutputIndex) && b > 0xFFFF)
           || (imm.value.IsTypeSpecific() && !imm.value.BelongsTo(tx.body))
  {
    if imm.Some? {
      var a := imm.value;
      var q := QueryOf(a);
      assert GtfValue(tx, m, ofs, txSize, b, imm) == Answer(tx, m, ofs, txSize, b, q);
    }
  }

  /** An address `GTF` reports never wraps below the transaction's start:
      it saturates instead. */
  lemma GtfAddressNotBelowStart(tx: Tx, m: map<U16, U16>, ofs: Word, txSize: Word, b: Word, args: GtfArgs)
    requires Sized(tx) && args.IsAddress()
    ensures var r := GtfValue(tx, m, ofs, txSize, b, Some(args)); r.Ok? ==> ofs <= r.value
  {
  }

  /** The selectors about one input fail only with `InputNotFound`, apart from
      an out-of-range contract index; those about one output fail with
      `OutputNotFound`, apart from `OutputContractInputIndex`, which reports
      `InputNotFound`. */
  lemma GtfFieldErrors(tx: Tx, m: map<U16, U16>, ofs: Word, txSize: Word, b: Word, args: GtfArgs)
    requires Sized(tx)
    ensures var r := GtfValue(tx, m, ofs, txSize, b, Some(args));
      (args.IsInputField() && r.Err? ==>
        r.error == InputNotFound || (args.InputContractOutputIndex? && b > 0xFFFF && r.error == InvalidMetadataIdentifier))
      && (args.IsOutputField() && r.Err? ==>
        if args.OutputContractInputIndex? then r.error == InputNotFound else r.error == OutputNotFound)
  {
    assert GtfValue(tx, m, ofs, txSize, b, Some(args)) == Answer(tx, m, ofs, txSize, b, QueryOf(args));
  }

  /** The witness data starts one word after the witness itself (past its
      length prefix); a missing witness is `WitnessNotFound`. */
  lemma WitnessDataAfterLength(tx: Tx, m: map<U16, U16>, ofs: Word, txSize: Word, b: Word)
    requires Sized(tx)
    ensures var r := GtfValue(tx, m, ofs, txSize, b, Some(WitnessData));
      (r.Ok? <==> b < |tx.witnesses|)
      && (r.Ok? ==> r.value == SatAdd(GtfValue(tx, m, ofs, txSize, b, Some(TxWitnessAtIndex)).value, WORD_SIZE))
      && (r.Ok? && ofs + tx.witnesses[b].at + WORD_SIZE <= USIZE_MAX ==> r.value == ofs + tx.witnesses[b].at + 8)
      && (r.Err? ==> r.error == WitnessNotFound)
  {
    assert GtfValue(tx, m, ofs, txSize, b, Some(WitnessData)) == Answer(tx, m, ofs, txSize, b, WitnessDataAt);
    assert GtfValue(tx, m, ofs, txSize, b, Some(TxWitnessAtIndex)) == Answer(tx, m, ofs, txSize, b, WitnessAt);
  }

  /** The counts answer the same under their `Script`, `Create` and `Tx`
      spellings, whatever the transaction type. */
  lemma GtfCountAliases(tx: Tx, m: map<U16, U16>, ofs: Word, txSize: Word, b: Word)
    requires Sized(tx)
    ensures GtfValue(tx, m, ofs, txSize, b, Some(ScriptInputsCount)) == Ok(|tx.inputs|)
      == GtfValue(tx, m, ofs, txSize, b, Some(CreateInputsCount)) == GtfValue(tx, m, ofs, txSize, b, Some(TxInputsCount))
    ensures GtfValue(tx, m, ofs, txSize, b, Some(ScriptOutputsCount)) == Ok(|tx.outputs|)
      == GtfValue(tx, m, ofs, txSize, b, Some(CreateOutputsCount)) == GtfValue(tx, m, ofs, txSize, b, Some(TxOutputsCount))
  {
    assert QueryOf(ScriptInputsCount) == QueryOf(CreateInputsCount) == QueryOf(TxInputsCount) == InputsCount;
    assert QueryOf(ScriptOutputsCount) == QueryOf(CreateOutputsCount) == QueryOf(TxOutputsCount) == OutputsCount;
  }

  /** Input `b`'s address is the same under the three spellings, and is
      `InputNotFound` exactly when there is no input `b`. */
  lemma GtfInputAtIndex(tx: Tx, m: map<U16, U16>, ofs: Word, txSize: Word, b: Word)
    requires Sized(tx)
    ensures var r := GtfValue(tx, m, ofs, txSize, b, Some(TxInputAtIndex));
      r == GtfValue(tx, m, ofs, txSize, b, Some(ScriptInputAtIndex))
      && r == GtfValue(tx, m, ofs, txSize, b, Some(CreateInputAtIndex))
      && (r.Ok? <==> b < |tx.inputs|) && (r.Err? ==> r.error == InputNotFound)
      && (r.Ok? ==> r.value == SatAdd(ofs, tx.inputs[b].at))
  {
  }

  /** A policy selector answers the policy's value, or `PolicyIsNotSet`. */
  lemma GtfPolicies(tx: Tx, m: map<U16, U16>, ofs: Word, txSize: Word, b: Word)
    requires Sized(tx)
    ensures var r := GtfValue(tx, m, ofs, txSize, b, Some(PolicyMaxFee));
      (r.Ok? <==> MaxFee in tx.policies) && (r.Ok? ==> r.value == tx.policies[MaxFee])
      && (r.Err? ==> r.error == PolicyIsNotSet)
    ensures var r := GtfValue(tx, m, ofs, txSize, b, Some(PolicyTip));
      (r.Ok? <==> Tip in tx.policies) && (r.Err? ==> r.error == PolicyIsNotSet)
    ensures GtfValue(tx, m, ofs, txSize, b, Some(ScriptGasLimit)) == Ok(if tx.body.Script? then tx.body.gasLimit else 0)
  {
  }

  // ---------------------------------------------------------------------------
  // Writing the result
  // ---------------------------------------------------------------------------

  /** `inc_pc`: pc moves past the 4-byte instruction; overflowing the word
      is `MemoryOverflow`. */
  function IncPc(pc: Word): (r: Result<Word, PanicReason>)
    ensures r.Ok? <==> pc + 4 <= WORD_MAX
    ensures r.Ok? ==> r.value == pc + 4
    ensures r.Err? ==> r.error == PanicReason.MemoryOverflow
  {
    if pc + 4 <= WORD_MAX then Ok(pc + 4) else Err(PanicReason.MemoryOverflow)
  }

  /** What both instructions do with the computed value: refuse a system
      register, report a failed computation with no register changed, and
      otherwise write `ra` and then advance pc. The write stays in place when
      advancing pc overflows. */
  function WriteAndAdvance(regs: seq<Word>, ra: RegId, value: Result<Word, PanicReason>): (r: (Result<(), PanicReason>, seq<Word>))
    requires |regs| == VM_REGISTER_COUNT
    ensures |r.1| == |regs|
    ensures ra < VM_REGISTER_SYSTEM_COUNT ==> r == (Err(ReservedRegisterNotWritable), regs)
    ensures ra >= VM_REGISTER_SYSTEM_COUNT && value.Err? ==> r == (Err(value.error), regs)
    ensures r.0.Ok? <==> ra >= VM_REGISTER_SYSTEM_COUNT && value.Ok? && regs[PC] + 4 <= WORD_MAX
    ensures ra >= VM_REGISTER_SYSTEM_COUNT && value.Ok? ==>
      r.1[ra] == value.value
      && r.1[PC] == (if r.0.Ok? then regs[PC] + 4 else regs[PC])
      && (r.0.Err? ==> r.0.error == PanicReason.MemoryOverflow)
      && forall k :: 0 <= k < |regs| && k != ra && k != PC ==> r.1[k] == regs[k]
  {
    if ra < VM_REGISTER_SYSTEM_COUNT then (Err(ReservedRegisterNotWritable), regs)
    else match value
      case Err(e) => (Err(e), regs)
      case Ok(v) =>
        var written := regs[ra := v];
        match IncPc(written[PC])
        case Err(e) => (Err(e), written)
        case Ok(pc) => (Ok(()), written[PC := pc])
  }

  /** The transaction's length, stored big-endian in the word just below the
      transaction. */
  function TxSize(memory: seq<Byte>, txOffset: Word): (size: Word)
    requires 8 <= txOffset <= |memory|
    ensures size == BeValue(memory[txOffset - 8..txOffset])
  {
    var bytes := memory[txOffset - 8..txOffset];
    BeValueBound(bytes);
    WordFits();
    BeValue(bytes)
  }

  // ---------------------------------------------------------------------------
  // The interpreter
  // ---------------------------------------------------------------------------

  class Interpreter {
    const registers: array<Word>
    var context: Context
    var frames: seq<CallFrame>
    var chainId: Word
    var gasPrice: Word
    var txOffset: Word
    var tx: Tx
    var inputContractsIndexToOutputIndex: map<U16, U16>
    var memory: seq<Byte>

    constructor(context: Context, chainId: Word, gasPrice: Word, txOffset: Word, tx: Tx,
                inputContracts: map<U16, U16>, memory: seq<Byte>)
      ensures registers.Length == VM_REGISTER_COUNT && fresh(registers)
      ensures registers[..] == seq(VM_REGISTER_COUNT, _ => 0)
      ensures this.context == context && frames == [] && this.chainId == chainId
      ensures this.gasPrice == gasPrice && this.txOffset == txOffset && this.tx == tx
      ensures inputContractsIndexToOutputIndex == inputContracts && this.memory == memory
    {
      registers := new Word[VM_REGISTER_COUNT](_ => 0);
      this.context := context;
      frames := [];
      this.chainId := chainId;
      this.gasPrice := gasPrice;
      this.txOffset := txOffset;
      this.tx := tx;
      inputContractsIndexToOutputIndex := inputContracts;
      this.memory := memory;
    }

    /** Writes `value` to `ra` and advances pc. */
    method Write(ra: RegId, value: Word) returns (r: Result<(), PanicReason>)
      requires registers.Length == VM_REGISTER_COUNT && ra >= VM_REGISTER_SYSTEM_COUNT
      modifies registers
      ensures (r, registers[..]) == WriteAndAdvance(old(registers[..]), ra, Ok(value))
    {
      registers[ra] := value;
      if registers[PC] + 4 > WORD_MAX {
        return Err(PanicReason.MemoryOverflow);
      }
      registers[PC] := registers[PC] + 4;
      return Ok(());
    }

    /** `GM ra imm`. */
    method Metadata(ra: RegId, imm: Option<GmArgs>) returns (r: Result<(), PanicReason>)
      requires registers.Length == VM_REGISTER_COUNT
      modifies registers
      ensures (r, registers[..]) ==
        WriteAndAdvance(old(registers[..]), ra, GmValue(context, frames, imm, chainId, txOffset, gasPrice))
    {
      if ra < VM_REGISTER_SYSTEM_COUNT {
        return Err(ReservedRegisterNotWritable);
      }
      var value := GmValue(context, frames, imm, chainId, txOffset, gasPrice);
      if value.Err? {
        return Err(value.error);
      }
      r := Write(ra, value.value);
    }

    /** `GTF ra b imm`. The interpreter keeps the transaction's length in the
        eight bytes below the transaction, so the offset is at least 8. */
    method GetTransactionField(ra: RegId, b: Word, imm: Option<GtfArgs>) returns (r: Result<(), PanicReason>)
      requires registers.Length == VM_REGISTER_COUNT && Sized(tx)
      requires 8 <= txOffset <= |memory|
      modifies registers
      ensures (r, registers[..]) ==
        WriteAndAdvance(old(registers[..]), ra,
          GtfValue(tx, inputContractsIndexToOutputIndex, txOffset, TxSize(memory, txOffset), b, imm))
    {
      var txSize := TxSize(memory, txOffset);
      if ra < VM_REGISTER_SYSTEM_COUNT {
        return Err(ReservedRegisterNotWritable);
      }
      var value := GtfValue(tx, inputContractsIndexToOutputIndex, txOffset, txSize, b, imm);
      if value.Err? {
        return Err(value.error);
      }
      r := Write(ra, value.value);
    }
  }
}
