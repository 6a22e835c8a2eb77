/**
  Sending an ordinary red packet (`SendRedPack` in pay/redpack/redpack.go):
  the signed parameter map built from the caller's parameters and the
  payment configuration, the request record that carries the same values
  and the MD5 signature, and the classification of the gateway's reply.

  The MD5 digest, the random nonce, the mutual-TLS POST and XML decoding
  are outside this model; they enter as parameters.
 */
module RedPack {
  import opened Canonical
  import StringOrder

  newtype Byte = x: int | 0 <= x < 256

  datatype Option<T> = None | Some(value: T)

  const RedPackGateway := "https://api.mch.weixin.qq.com/mmpaymkttransfers/sendredpack"
  const Success := "SUCCESS"

  /** The payment configuration (pay/config/config.go). */
  datatype Config = Config(
    AppID: string,
    MchID: string,
    Key: string,
    NotifyURL: string,
    PayKey: string,
    PayMchID: string,
    ClientIP: string)

  /** What the caller supplies for one red packet. */
  datatype RedPackParams = RedPackParams(
    ActName: string,
    MchBillno: string,
    ReOpenid: string,
    Remark: string,
    SendName: string,
    TotalAmount: Int64,
    TotalNum: Int64,
    Wishing: string,
    RootCa: string,
    SceneId: string)

  /** The request record that is marshalled to XML and posted. */
  datatype RedPackRequest = RedPackRequest(
    ActName: string,
    ClientIP: string,
    MchBillno: string,
    MchID: string,
    NonceStr: string,
    ReOpenid: string,
    Remark: string,
    SendName: string,
    TotalAmount: Int64,
    TotalNum: Int64,
    Wishing: string,
    Wxappid: string,
    Sign: string,
    SceneId: string)

  /** The gateway's reply, as XML decoding fills it in. */
  datatype RedPackResp = RedPackResp(
    ReturnMsg: string,
    MchID: string,
    WxAppID: string,
    ReOpenid: string,
    TotalAmount: Int64,
    ReturnCode: string,
    ResultCode: string,
    ErrCode: string,
    ErrCodeDes: string,
    MchBillNo: string,
    SendTime: string,
    SendListID: string)

  /** The zero value Go returns for `rsp` when the POST fails. */
  const ZeroResp := RedPackResp("", "", "", "", 0, "", "", "", "", "", "", "")

  /** The outcome of the mutual-TLS POST: the raw body, or the transport's error. */
  datatype PostResult = Posted(raw: seq<Byte>) | PostFailed(cause: string)

  /** The outcome of XML decoding: what was filled in, and the decoder's error if any. */
  datatype Decoded = Decoded(resp: RedPackResp, failure: Option<string>)

  /** The `error` `SendRedPack` returns. */
  datatype Error =
    | Nil
      /** the POST failed; its error is passed on unchanged */
    | TransportError(cause: string)
      /** the body was not a decodable reply; the decoder's error is passed on unchanged */
    | ParseError(cause: string)
      /** return_code SUCCESS but result_code otherwise: "refund error, errcode=%s,errmsg=%s" */
    | BusinessError(errCode: string, errCodeDes: string)
      /** return_code not SUCCESS: the raw body, the signed string and the signature */
    | Rejected(raw: seq<Byte>, params: string, sign: string)

  /** The names of the signed parameters. */
  const SignedNames: set<string> := {
    "act_name", "client_ip", "mch_billno", "mch_id", "nonce_str", "re_openid", "remark",
    "send_name", "total_amount", "total_num", "wishing", "wxappid", "scene_id"}

  /** The map `SendRedPack` signs. */
  function SignParams(p: RedPackParams, cfg: Config, nonce: string): (m: map<string, Value>)
    ensures m.Keys == SignedNames && "sign" !in m
  {
    map[
      "act_name" := Str(p.ActName),
      "client_ip" := Str(cfg.ClientIP),
      "mch_billno" := Str(p.MchBillno),
      "mch_id" := Str(cfg.PayMchID),
      "nonce_str" := Str(nonce),
      "re_openid" := Str(p.ReOpenid),
      "remark" := Str(p.Remark),
      "send_name" := Str(p.SendName),
      "total_amount" := Int(p.TotalAmount),
      "total_num" := Int(p.TotalNum),
      "wishing" := Str(p.Wishing),
      "wxappid" := Str(cfg.AppID),
      "scene_id" := Str(p.SceneId)]
  }

  /** The suffix appended before hashing. */
  function BizKey(payKey: string): (r: string)
    ensures |r| == 5 + |payKey| && r[..5] == "&key=" && r[5..] == payKey
  {
    var r := "&key=" + payKey;
    assert r[5..] == payKey;
    r
  }

  /** The string that is hashed: `orderParam(param, "&key=" + PayKey)`. */
  function SignBase(p: RedPackParams, cfg: Config, nonce: string): (r: string)
    ensures var suffix := BizKey(cfg.PayKey);
      |r| > |suffix| && r[|r| - |suffix|..] == suffix
  {
    var m := SignParams(p, cfg, nonce);
    TotalAmountSigned(p, cfg, nonce);
    OrderParam(m, BizKey(cfg.PayKey))
  }

  /** The amount is always signed, even when zero. */
  lemma TotalAmountSigned(p: RedPackParams, cfg: Config, nonce: string)
    ensures "total_amount" in EmittedKeys(SignParams(p, cfg, nonce))
  {
    IntAlwaysWritten(SignParams(p, cfg, nonce), "total_amount", p.TotalAmount);
  }

  /** The number of recipients is always signed, even when zero. */
  lemma TotalNumSigned(p: RedPackParams, cfg: Config, nonce: string)
    ensures "total_num" in EmittedKeys(SignParams(p, cfg, nonce))
  {
    IntAlwaysWritten(SignParams(p, cfg, nonce), "total_num", p.TotalNum);
  }

  /** The nonce is signed exactly when it is not empty. */
  lemma NonceSigned(p: RedPackParams, cfg: Config, nonce: string)
    ensures "nonce_str" in EmittedKeys(SignParams(p, cfg, nonce)) <==> nonce != ""
  {
    StringWrittenUnlessEmpty(SignParams(p, cfg, nonce), "nonce_str", nonce);
  }

  /** The scene id is signed exactly when it is not empty. */
  lemma SceneIdSigned(p: RedPackParams, cfg: Config, nonce: string)
    ensures "scene_id" in EmittedKeys(SignParams(p, cfg, nonce)) <==> p.SceneId != ""
  {
    StringWrittenUnlessEmpty(SignParams(p, cfg, nonce), "scene_id", p.SceneId);
  }

  /** The parameters a receiver reads off a request: every field but the signature,
      under its XML tag. */
  function RequestParams(r: RedPackRequest): map<string, Value> {
    map[
      "act_name" := Str(r.ActName),
      "client_ip" := Str(r.ClientIP),
      "mch_billno" := Str(r.MchBillno),
      "mch_id" := Str(r.MchID),
      "nonce_str" := Str(r.NonceStr),
      "re_openid" := Str(r.ReOpenid),
      "remark" := Str(r.Remark),
      "send_name" := Str(r.SendName),
      "total_amount" := Int(r.TotalAmount),
      "total_num" := Int(r.TotalNum),
      "wishing" := Str(r.Wishing),
      "wxappid" := Str(r.Wxappid),
      "scene_id" := Str(r.SceneId)]
  }

  /** A receiver holding `payKey` recomputes `r`'s signature from `r`'s own fields and gets `r.Sign`. */
  predicate SignatureVerifies(r: RedPackRequest, payKey: string, md5: string -> string) {
    r.Sign == md5(OrderParam(RequestParams(r), BizKey(payKey)))
  }

  /** A request is determined by the parameters it carries and its signature. */
  lemma RequestDetermined(r1: RedPackRequest, r2: RedPackRequest)
    requires RequestParams(r1) == RequestParams(r2) && r1.Sign == r2.Sign
    ensures r1 == r2
  {
    var m1, m2 := RequestParams(r1), RequestParams(r2);
    assert m1["act_name"] == m2["act_name"];
    assert m1["client_ip"] == m2["client_ip"];
    assert m1["mch_billno"] == m2["mch_billno"];
    assert m1["mch_id"] == m2["mch_id"];
    assert m1["nonce_str"] == m2["nonce_str"];
    assert m1["re_openid"] == m2["re_openid"];
    assert m1["remark"] == m2["remark"];
    assert m1["send_name"] == m2["send_name"];
    assert m1["total_amount"] == m2["total_amount"];
    assert m1["total_num"] == m2["total_num"];
    assert m1["wishing"] == m2["wishing"];
    assert m1["wxappid"] == m2["wxappid"];
    assert m1["scene_id"] == m2["scene_id"];
  }

  /** The request record `SendRedPack` posts, signed with `md5`. */
  function BuildRequest(p: RedPackParams, cfg: Config, nonce: string, md5: string -> string)
    : (r: RedPackRequest)
    ensures RequestParams(r) == SignParams(p, cfg, nonce)
    ensures r.Sign == md5(SignBase(p, cfg, nonce))
    ensures SignatureVerifies(r, cfg.PayKey, md5)
  {
    RedPackRequest(
      ActName := p.ActName,
      ClientIP := cfg.ClientIP,
      MchBillno := p.MchBillno,
      MchID := cfg.PayMchID,
      NonceStr := nonce,
      ReOpenid := p.ReOpenid,
      Remark := p.Remark,
      SendName := p.SendName,
      TotalAmount := p.TotalAmount,
      TotalNum := p.TotalNum,
      Wishing := p.Wishing,
      Wxappid := cfg.AppID,
      SceneId := p.SceneId,
      Sign := md5(SignBase(p, cfg, nonce)))
  }

  /** The decision on a decoded reply. */
  function Classify(rsp: RedPackResp, raw: seq<Byte>, str: string, sign: string): (e: Error)
    ensures e == Nil <==> rsp.ReturnCode == Success && rsp.ResultCode == Success
    ensures e.BusinessError? <==> rsp.ReturnCode == Success && rsp.ResultCode != Success
    ensures e.Rejected? <==> rsp.ReturnCode != Success
    ensures e.BusinessError? ==> e.errCode == rsp.ErrCode && e.errCodeDes == rsp.ErrCodeDes
    ensures e.Rejected? ==> e.raw == raw && e.params == str && e.sign == sign
  {
    if rsp.ReturnCode == Success then
      if rsp.ResultCode == Success then Nil
      else BusinessError(rsp.ErrCode, rsp.ErrCodeDes)
    else Rejected(raw, str, sign)
  }

  /** The first half of `SendRedPack`: the parameter map, filled one key at a time. */
  method FillParams(p: RedPackParams, cfg: Config, nonce: string) returns (param: map<string, Value>)
    ensures param == SignParams(p, cfg, nonce)
  {
    param := map[];
    param := param["act_name" := Str(p.ActName)];
    param := param["client_ip" := Str(cfg.ClientIP)];
    param := param["mch_billno" := Str(p.MchBillno)];
    param := param["mch_id" := Str(cfg.PayMchID)];
    param := param["nonce_str" := Str(nonce)];
    param := param["re_openid" := Str(p.ReOpenid)];
    param := param["remark" := Str(p.Remark)];
    param := param["send_name" := Str(p.SendName)];
    param := param["total_amount" := Int(p.TotalAmount)];
    param := param["total_num" := Int(p.TotalNum)];
    param := param["wishing" := Str(p.Wishing)];
    param := param["wxappid" := Str(cfg.AppID)];
    param := param["scene_id" := Str(p.SceneId)];
    assert param == SignParams(p, cfg, nonce);
  }

  /** The request record, each field copied from the caller's parameters, the
      configuration or the nonce, and carrying `sign`. */
  method FillRequest(p: RedPackParams, cfg: Config, nonce: string, sign: string)
    returns (request: RedPackRequest)
    ensures RequestParams(request) == SignParams(p, cfg, nonce)
    ensures request.Sign == sign
  {
    request := RedPackRequest(
      ActName := p.ActName,
      ClientIP := cfg.ClientIP,
      MchBillno := p.MchBillno,
      MchID := cfg.PayMchID,
      NonceStr := nonce,
      ReOpenid := p.ReOpenid,
      Remark := p.Remark,
      SendName := p.SendName,
      TotalAmount := p.TotalAmount,
      TotalNum := p.TotalNum,
      Wishing := p.Wishing,
      Wxappid := cfg.AppID,
      SceneId := p.SceneId,
      Sign := sign);
  }

  /** `SendRedPack`: fill the parameter map, sign it, build the request, post it and
      classify the reply. `nonce` stands for `util.RandomStr(32)`, `md5` for
      `util.MD5Sum`, `post` for `util.PostXMLWithTLS` and `decode` for `xml.Unmarshal`. */
  method SendRedPack(
    cfg: Config,
    p: RedPackParams,
    nonce: string,
    md5: string -> string,
    post: (string, RedPackRequest, string, string) -> PostResult,
    decode: seq<Byte> -> Decoded)
    returns (rsp: RedPackResp, err: Error)
    ensures var sent := post(RedPackGateway, BuildRequest(p, cfg, nonce, md5), p.RootCa, cfg.PayMchID);
      match sent
      case PostFailed(cause) =>
        rsp == ZeroResp && err == TransportError(cause)
      case Posted(raw) =>
        var decoded := decode(raw);
        rsp == decoded.resp &&
        if decoded.failure.Some? then err == ParseError(decoded.failure.value)
        else
          var str := SignBase(p, cfg, nonce);
          err == Classify(rsp, raw, str, md5(str))
  {
    var param := FillParams(p, cfg, nonce);

    var bizKey := "&key=" + cfg.PayKey;
    var str := BuildOrderParam(param, bizKey);
    var sign := md5(str);
    var request := FillRequest(p, cfg, nonce, sign);
    RequestDetermined(request, BuildRequest(p, cfg, nonce, md5));

    rsp := ZeroResp;
    var sent := post(RedPackGateway, request, p.RootCa, cfg.PayMchID);
    if sent.PostFailed? {
      err := TransportError(sent.cause);
      return;
    }
    var rawRet := sent.raw;
    var decoded := decode(rawRet);
    rsp := decoded.resp;
    if decoded.failure.Some? {
      err := ParseError(decoded.failure.value);
      return;
    }
    if rsp.ReturnCode == Success {
      if rsp.ResultCode == Success {
        err := Nil;
        return;
      }
      err := BusinessError(rsp.ErrCode, rsp.ErrCodeDes);
      return;
    }
    err := Rejected(rawRet, str, sign);
  }

  const TestNonce := "5K8264ILTKCH16CQ2502SI8ZNMTM67V"

  function TestParams(rootCa: string): RedPackParams {
    RedPackParams("test", "1234", "oxTWIuGaIt6gTKsQRLau2M0yL16E", "test", "Test", 1000, 1, "test", rootCa, "")
  }

  function TestConfig(mchID: string, key: string, notifyURL: string): Config {
    Config("wx8888888888888888", mchID, key, notifyURL,
           "192006250b4c09247ec02edce69f6a2d", "10000100", "127.0.0.1")
  }

  const TestKeys := ["act_name", "client_ip", "mch_billno", "mch_id", "nonce_str", "re_openid",
                     "remark", "send_name", "total_amount", "total_num", "wishing", "wxappid"]

  lemma TestKeysIncreasing()
    ensures StringOrder.StrictlyIncreasing(TestKeys)
  {
    TestKeysAscendFront();
    TestKeysAscendBack();
    TestKeysAscendTail();
    StringOrder.ChainStrictlyIncreasing(TestKeys);
  }

  lemma TestKeysAscendFront()
    ensures forall k :: 0 < k < 6 ==> StringOrder.Less(TestKeys[k - 1], TestKeys[k])
  {
    assert StringOrder.Less("act_name", "client_ip");
    assert StringOrder.Less("client_ip", "mch_billno");
    assert StringOrder.Less("mch_billno", "mch_id");
    assert StringOrder.Less("mch_id", "nonce_str");
    assert StringOrder.Less("nonce_str", "re_openid");
  }

  lemma TestKeysAscendBack()
    ensures forall k :: 6 <= k < 9 ==> StringOrder.Less(TestKeys[k - 1], TestKeys[k])
  {
    assert StringOrder.Less("re_openid", "remark");
    assert StringOrder.Less("remark", "send_name");
    assert StringOrder.Less("send_name", "total_amount");
  }

  lemma TestKeysAscendTail()
    ensures forall k :: 9 <= k < 12 ==> StringOrder.Less(TestKeys[k - 1], TestKeys[k])
  {
    assert StringOrder.Less("total_amount", "total_num");
    assert StringOrder.Less("total_num", "wishing");
    assert StringOrder.Less("wishing", "wxappid");
  }

  /** The protocol's fixed test vector: with an empty scene id, which is therefore not
      signed, the signed keys are the twelve others, in this order. */
  lemma TestVectorEmitted(rootCa: string, mchID: string, key: string, notifyURL: string)
    ensures EmittedKeys(SignParams(TestParams(rootCa), TestConfig(mchID, key, notifyURL), TestNonce)) == TestKeys
  {
    var m := SignParams(TestParams(rootCa), TestConfig(mchID, key, notifyURL), TestNonce);
    TestKeysIncreasing();
    EmittedKeysUnique(m, TestKeys);
  }
}
