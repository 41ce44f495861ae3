/**
 * The cryptographic domain of a field (tenant, table, column, key version) and
 * its canonical rendering. The rendering is what binds ciphertexts and keys to
 * a domain: it is the AEAD associated data, the HKDF `info` and the blind-index
 * domain tag.
 */
module Context {
  import opened Wrappers
  import opened Bytes
  import Decimal
  import Utf8

  /** What the rendering shows for a context that has no tenant. */
  const DEFAULT_TENANT: string := "default"

  function TenantOrDefault(tenantId: Option<string>): (r: string)
    ensures tenantId.Some? ==> r == tenantId.value
    ensures tenantId.None? ==> r == DEFAULT_TENANT
  {
    match tenantId
    case Some(t) => t
    case None => DEFAULT_TENANT
  }

  /** Context for encryption and key derivation. Values are immutable; builders return updated copies. */
  datatype EncryptionContext = EncryptionContext(
    tenantId: Option<string>,
    tableName: string,
    columnName: string,
    version: u32)
  {
    /** `EncryptionContext::new(table, column)`: no tenant and key version 1. */
    static function New(tableName: string, columnName: string): (r: EncryptionContext)
      ensures r.tenantId.None? && r.version == 1
      ensures r.tableName == tableName && r.columnName == columnName
    {
      EncryptionContext(None, tableName, columnName, 1)
    }

    /** `with_tenant`: sets the tenant and leaves every other field as it was. */
    function WithTenant(tenant: string): (r: EncryptionContext)
      ensures r.tenantId == Some(tenant)
      ensures r.tableName == tableName && r.columnName == columnName && r.version == version
    {
      this.(tenantId := Some(tenant))
    }

    /** `with_version`: sets the key version and leaves every other field as it was. */
    function WithVersion(v: u32): (r: EncryptionContext)
      ensures r.version == v
      ensures r.tenantId == tenantId && r.tableName == tableName && r.columnName == columnName
    {
      this.(version := v)
    }

    /** `Display`: `tenant-or-default|table|column|v<version in decimal>`. */
    function ToString(): (r: string)
      ensures r == IndexContext.From(this).ToString() + "|v" + Decimal.ToDecimal(version)
    {
      TenantOrDefault(tenantId) + "|" + tableName + "|" + columnName + "|v" + Decimal.ToDecimal(version)
    }

    /** `to_string().as_bytes()`: the associated data and the HKDF `info`. */
    function AsBytes(): Bytes
    {
      Utf8.Encode(ToString())
    }
  }

  /** Context for blind indexes: the encryption context without a version, so indexes survive key rotation. */
  datatype IndexContext = IndexContext(
    tenantId: Option<string>,
    tableName: string,
    columnName: string)
  {
    /** `IndexContext::new(table, column)`: no tenant. */
    static function New(tableName: string, columnName: string): (r: IndexContext)
      ensures r.tenantId.None?
      ensures r.tableName == tableName && r.columnName == columnName
    {
      IndexContext(None, tableName, columnName)
    }

    /** `with_tenant`: sets the tenant and leaves table and column as they were. */
    function WithTenant(tenant: string): (r: IndexContext)
      ensures r.tenantId == Some(tenant)
      ensures r.tableName == tableName && r.columnName == columnName
    {
      this.(tenantId := Some(tenant))
    }

    /** `Display`: `tenant-or-default|table|column`. */
    function ToString(): (r: string)
      ensures var t := TenantOrDefault(tenantId);
              && |r| == |t| + |tableName| + |columnName| + 2
              && r[..|t|] == t && r[|t|] == '|'
              && r[|t| + 1..|t| + 1 + |tableName|] == tableName && r[|t| + 1 + |tableName|] == '|'
              && r[|t| + 2 + |tableName|..] == columnName
    {
      TenantOrDefault(tenantId) + "|" + tableName + "|" + columnName
    }

    /** `to_string().as_bytes()`: the blind-index domain tag. */
    function AsBytes(): Bytes
    {
      Utf8.Encode(ToString())
    }

    /** `IndexContext::from(&EncryptionContext)`: keeps tenant, table and column, drops the version. */
    static function From(e: EncryptionContext): (r: IndexContext)
      ensures r.tenantId == e.tenantId && r.tableName == e.tableName && r.columnName == e.columnName
    {
      IndexContext(e.tenantId, e.tableName, e.columnName)
    }
  }

  /** A string with no `|` ends where the first `|` of its rendering is. */
  lemma SplitAtPipe(x: string, y: string, x': string, y': string)
    requires '|' !in x && '|' !in x'
    requires x + "|" + y == x' + "|" + y'
    ensures x == x' && y == y'
  {
    var whole := x + "|" + y;
    assert whole[|x|] == '|' && (x' + "|" + y')[|x'|] == '|';
    assert |x| == |x'|;
    assert x == whole[..|x|] == x';
    assert y == whole[|x| + 1..] == y';
  }

  /**
   * When no field holds a `|`, the rendering is a faithful separator: index
   * contexts that render alike have the same tenant (with no tenant and
   * "default" alike), table and column.
   */
  lemma PipeFreeRenderingInjective(a: IndexContext, b: IndexContext)
    requires '|' !in TenantOrDefault(a.tenantId) && '|' !in a.tableName && '|' !in a.columnName
    requires '|' !in TenantOrDefault(b.tenantId) && '|' !in b.tableName && '|' !in b.columnName
    requires a.ToString() == b.ToString()
    ensures TenantOrDefault(a.tenantId) == TenantOrDefault(b.tenantId)
    ensures a.tableName == b.tableName && a.columnName == b.columnName
  {
    var ta, tb := TenantOrDefault(a.tenantId), TenantOrDefault(b.tenantId);
    assert a.ToString() == ta + "|" + (a.tableName + "|" + a.columnName);
    assert b.ToString() == tb + "|" + (b.tableName + "|" + b.columnName);
    SplitAtPipe(ta, a.tableName + "|" + a.columnName, tb, b.tableName + "|" + b.columnName);
    SplitAtPipe(a.tableName, a.columnName, b.tableName, b.columnName);
  }

  /** The rendering keeps the version apart: contexts that differ only in version render differently. */
  lemma VersionSeparates(e1: EncryptionContext, e2: EncryptionContext)
    requires e1.tenantId == e2.tenantId && e1.tableName == e2.tableName && e1.columnName == e2.columnName
    requires e1.version != e2.version
    ensures e1.ToString() != e2.ToString()
  {
    var prefix := IndexContext.From(e1).ToString() + "|v";
    assert IndexContext.From(e1) == IndexContext.From(e2);
    if e1.ToString() == e2.ToString() {
      assert e1.ToString()[|prefix|..] == Decimal.ToDecimal(e1.version);
      assert e2.ToString()[|prefix|..] == Decimal.ToDecimal(e2.version);
      Decimal.ToDecimalInjective(e1.version, e2.version);
      assert false;
    }
  }

  /** The renderings the unit tests expect. */
  lemma RenderingExamples()
    ensures EncryptionContext.New("users", "email").WithTenant("tenant_123").WithVersion(2).ToString()
            == "tenant_123|users|email|v2"
    ensures EncryptionContext.New("users", "email").ToString() == "default|users|email|v1"
    ensures IndexContext.New("users", "email").WithTenant("tenant_123").ToString() == "tenant_123|users|email"
  {
    TenantExample();
    DefaultExample();
  }

  lemma TenantExample()
    ensures EncryptionContext.New("users", "email").WithTenant("tenant_123").WithVersion(2).ToString()
            == "tenant_123|users|email|v2"
  {
    var e := EncryptionContext(Some("tenant_123"), "users", "email", 2);
    assert EncryptionContext.New("users", "email").WithTenant("tenant_123").WithVersion(2) == e;
    assert Decimal.ToDecimal(2) == "2";
  }

  lemma DefaultExample()
    ensures EncryptionContext.New("users", "email").ToString() == "default|users|email|v1"
  {
    assert Decimal.ToDecimal(1) == "1";
  }

  /**
   * The rendering is not injective: a missing tenant and the tenant "default"
   * render alike, and a `|` inside a field can move a field boundary.
   */
  lemma RenderingCollisions()
    ensures EncryptionContext.New("users", "email") != EncryptionContext.New("users", "email").WithTenant("default")
    ensures EncryptionContext.New("users", "email").ToString()
            == EncryptionContext.New("users", "email").WithTenant("default").ToString()
    ensures EncryptionContext.New("a|b", "c").WithTenant("t")
            != EncryptionContext.New("b", "c").WithTenant("t|a")
    ensures EncryptionContext.New("a|b", "c").WithTenant("t").ToString()
            == EncryptionContext.New("b", "c").WithTenant("t|a").ToString()
  {
    assert Decimal.ToDecimal(1) == "1";
    assert "a|b" != "b";
  }
}
