/** The snapshot a flow shows its user, and the three levels of validation it goes through. */
module FlowContext {
  import opened Wrappers

  datatype Check = Check(name: string, passed: bool, detail: string)

  datatype Verification = Verification(verified: bool, provider: string, checks: seq<Check>)

  datatype ExtraType = Prompt | Message | Warning | Error

  datatype Extra = Extra(text: string, kind: ExtraType)

  datatype Context = Context(
    restricted: bool, depositAddr: Option<string>, destAddress: Option<string>, refundAddress: Option<string>,
    depositAmount: Option<string>, fromToken: Option<string>, toToken: Option<string>,
    expectedOut: Option<string>, amountInUsd: Option<string>, expectedOutUsd: Option<string>,
    qr: Option<string>, verification: Option<Verification>, verificationSourceUrl: Option<string>,
    expiresAt: Option<string>, provider: Option<string>, swapId: Option<string>, swapNumber: Option<string>,
    extra: Option<Extra>)

  const EMPTY := Context(false, None, None, None, None, None, None, None, None, None, None, None, None, None, None,
                         None, None, None)

  predicate ValidBase(c: Context) {
    c.extra.Some? ==> c.extra.value.text != ""
  }

  predicate ValidPopulated(c: Context) {
    && ValidBase(c)
    && Truthy(c.depositAddr) && Truthy(c.destAddress) && Truthy(c.fromToken) && Truthy(c.toToken)
    && Truthy(c.qr) && Truthy(c.provider)
  }

  predicate ValidVerified(c: Context) {
    ValidPopulated(c) && c.verification.Some?
  }
}
