/** The per-output validation rule of a transaction: a `Contract` output
    must name, by its `input_index`, an input that exists and is a contract
    input; every other output kind is valid on its own. */
module OutputValidation {
  import opened Wrappers
  import opened FuelTypes

  type U8 = x: nat | x < 256

  datatype Input =
    | Coin(utxoId: Bytes32, owner: Address, amount: Word, color: Color, witnessIndex: U8,
           maturity: Word, predicateCode: Bytes, predicateData: Bytes)
    | Contract(utxoId: Bytes32, balanceRoot: Bytes32, stateRoot: Bytes32, contractId: ContractId)

  datatype Output =
    | Coin(to: Address, amount: Word, color: Color)
    | Contract(inputIndex: U8, balanceRoot: Bytes32, stateRoot: Bytes32)
    | Withdrawal(to: Address, amount: Word, color: Color)
    | Change(to: Address, amount: Word, color: Color)
    | Variable(to: Address, amount: Word, color: Color)
    | ContractCreated(contractId: ContractId)

  /** `Output::validate(index, inputs)`, where `index` is the output's own
      position in the transaction. */
  function Validate(output: Output, index: nat, inputs: seq<Input>): (r: Result<(), ValidationError>)
    ensures r.Ok? <==> !output.Contract? || (output.inputIndex < |inputs| && inputs[output.inputIndex].Contract?)
    ensures r.Err? ==> r.error == OutputContractInputIndex(index)
  {
    match output
    case Contract(inputIndex, _, _) =>
      if inputIndex < |inputs| && inputs[inputIndex].Contract? then Ok(())
      else Err(OutputContractInputIndex(index))
    case _ => Ok(())
  }

  /** The cases of the validation tests: every non-contract output is valid
      with no inputs at all; a contract output pointing at a contract input
      is valid, and one pointing at a coin input or past the end fails with
      its own index. */
  lemma ValidateCases(to: Address, amount: Word, color: Color, id: ContractId, root: Bytes32, coin: Input, contract: Input)
    requires coin.Coin? && contract.Contract?
    ensures Validate(Output.Coin(to, amount, color), 1, []).Ok?
    ensures Validate(Output.Withdrawal(to, amount, color), 1, []).Ok?
    ensures Validate(Output.Change(to, amount, color), 1, []).Ok?
    ensures Validate(Output.Variable(to, amount, color), 1, []).Ok?
    ensures Validate(Output.ContractCreated(id), 1, []).Ok?
    ensures Validate(Output.Contract(1, root, root), 2, [coin, contract]).Ok?
    ensures Validate(Output.Contract(0, root, root), 2, [coin, contract]) == Err(OutputContractInputIndex(2))
    ensures Validate(Output.Contract(2, root, root), 2, [coin, contract]) == Err(OutputContractInputIndex(2))
  {
  }
}
